/** How C lays a struct of integers out in memory, and that the collectors' formats
    read it back. */
module CLayout {
  import opened Bytes
  import opened StructCodec

  /** A struct with the offset of each member. A member that only pads is declared but
      not kept by the reader. */
  datatype Struct = Empty | Member(offset: nat, size: nat, kept: bool, rest: Struct)

  /** Members follow one another from `at` on and end by `total`. */
  predicate InOrder(s: Struct, at: nat, total: nat) {
    if s.Empty? then at <= total else at <= s.offset && InOrder(s.rest, s.offset + s.size, total)
  }

  /** `o` is the first multiple of `size` from `at` on. */
  predicate FirstMultiple(o: nat, size: nat, at: nat) {
    0 < size && at <= o < at + size && o % size == 0
  }

  /** C's rule for integers: every member stands at the first multiple of its size after
      the member before it. */
  predicate NaturallyAligned(s: Struct, at: nat) {
    s.Empty? || (FirstMultiple(s.offset, s.size, at) && NaturallyAligned(s.rest, s.offset + s.size))
  }

  function Alignment(s: Struct): nat {
    if s.Empty? then 1
    else
      var a := Alignment(s.rest);
      if s.size > a then s.size else a
  }

  function End(s: Struct, at: nat): nat {
    if s.Empty? then at else End(s.rest, s.offset + s.size)
  }

  /** The size of the struct: its end, rounded up to its alignment. */
  predicate IsSizeOf(total: nat, s: Struct) {
    FirstMultiple(total, Alignment(s), End(s, 0))
  }

  lemma {:induction false} AlignedIsInOrder(s: Struct, at: nat, total: nat)
    requires NaturallyAligned(s, at) && End(s, at) <= total
    ensures InOrder(s, at, total)
  {
    if !s.Empty? {
      AlignedIsInOrder(s.rest, s.offset + s.size, total);
    }
  }

  /** A pad of `n` bytes, if there are any. */
  function Skip(n: nat, rest: Format): Format {
    if n == 0 then rest else Pad(n, rest)
  }

  /** The format from offset `at` to `total` that skips exactly what the compiler leaves
      unused and the reader does not keep. */
  function FormatFrom(s: Struct, at: nat, total: nat): Format
    requires InOrder(s, at, total)
  {
    if s.Empty? then Skip(total - at, Done)
    else
      var rest := FormatFrom(s.rest, s.offset + s.size, total);
      Skip(s.offset - at, if s.kept then UInt(s.size, rest) else Pad(s.size, rest))
  }

  /** Memory holding the struct: each member's value at the member's offset, anything
      at all in the holes. */
  ghost predicate Image(b: seq<byte>, s: Struct, values: seq<nat>) {
    if s.Empty? then values == []
    else
      && values != [] && values[0] < Pow256(s.size)
      && s.offset + s.size <= |b| && b[s.offset..s.offset + s.size] == Le(s.size, values[0])
      && Image(b, s.rest, values[1..])
  }

  function Kept(s: Struct, values: seq<nat>): seq<nat> {
    if s.Empty? || values == [] then []
    else if s.kept then [values[0]] + Kept(s.rest, values[1..]) else Kept(s.rest, values[1..])
  }

  /** Reading a struct's memory through its format yields the kept members' values,
      whatever the compiler left in the holes. */
  lemma {:induction false} ReadsStruct(b: seq<byte>, s: Struct, at: nat, values: seq<nat>)
    requires InOrder(s, at, |b|) && at <= |b| && Image(b, s, values)
    ensures Width(FormatFrom(s, at, |b|)) == |b| - at
    ensures Unpack(FormatFrom(s, at, |b|), b[at..]) == Kept(s, values)
  {
    if s.Empty? {
      SkipReads(b, at, |b|, Done);
      assert b[|b|..] == [];
    } else {
      var next := s.offset + s.size;
      ReadsStruct(b, s.rest, next, values[1..]);
      ReadsOnward(b, at, s.offset, s.size, s.kept, values[0], FormatFrom(s.rest, next, |b|));
    }
  }

  /** A member at `here`, the hole before it from `at` on, and the rest of the memory. */
  lemma ReadsOnward(b: seq<byte>, at: nat, here: nat, size: nat, kept: bool, value: nat, rest: Format)
    requires at <= here && here + size <= |b| && value < Pow256(size) && b[here..here + size] == Le(size, value)
    requires Width(rest) == |b| - (here + size)
    ensures var fmt := Skip(here - at, if kept then UInt(size, rest) else Pad(size, rest));
            && Width(fmt) == |b| - at
            && Unpack(fmt, b[at..]) == (if kept then [value] else []) + Unpack(rest, b[here + size..])
  {
    MemberReads(b, here, size, value, rest);
    SkipReads(b, at, here, if kept then UInt(size, rest) else Pad(size, rest));
  }

  lemma MemberReads(b: seq<byte>, here: nat, size: nat, value: nat, rest: Format)
    requires here + size <= |b| && value < Pow256(size) && b[here..here + size] == Le(size, value)
    requires Width(rest) == |b| - (here + size)
    ensures Unpack(UInt(size, rest), b[here..]) == [value] + Unpack(rest, b[here + size..])
    ensures Unpack(Pad(size, rest), b[here..]) == Unpack(rest, b[here + size..])
  {
    FromLeOfLe(size, value);
    assert b[here..][size..] == b[here + size..] && b[here..][..size] == b[here..here + size];
  }

  lemma SkipReads(b: seq<byte>, at: nat, here: nat, fmt: Format)
    requires at <= here <= |b| && Width(fmt) == |b| - here
    ensures Width(Skip(here - at, fmt)) == |b| - at
    ensures Unpack(Skip(here - at, fmt), b[at..]) == Unpack(fmt, b[here..])
  {
    assert b[at..][here - at..] == b[here..];
  }

  lemma {:induction false} FormatWidth(s: Struct, at: nat, total: nat)
    requires InOrder(s, at, total) && at <= total
    ensures Width(FormatFrom(s, at, total)) == total - at
  {
    if !s.Empty? {
      EndsWithin(s.rest, s.offset + s.size, total);
      FormatWidth(s.rest, s.offset + s.size, total);
    }
  }

  lemma {:induction false} EndsWithin(s: Struct, at: nat, total: nat)
    requires InOrder(s, at, total)
    ensures at <= total
  {
    if !s.Empty? {
      EndsWithin(s.rest, s.offset + s.size, total);
    }
  }

  function Members(s: Struct): nat {
    if s.Empty? then 0 else 1 + Members(s.rest)
  }

  /** The first `n` members are all kept. */
  predicate KeepsFirst(s: Struct, n: nat) {
    n == 0 || (s.Member? && s.kept && KeepsFirst(s.rest, n - 1))
  }

  function Beyond(s: Struct, n: nat): Struct
    requires KeepsFirst(s, n)
  {
    if n == 0 then s else Beyond(s.rest, n - 1)
  }

  lemma {:induction false} KeptFirst(s: Struct, n: nat, values: seq<nat>)
    requires KeepsFirst(s, n) && n <= |values|
    ensures Kept(s, values) == values[..n] + Kept(Beyond(s, n), values[n..])
  {
    if n > 0 {
      KeptFirst(s.rest, n - 1, values[1..]);
      assert values[1..][n - 1..] == values[n..];
      assert values[..n] == [values[0]] + values[1..][..n - 1];
    } else {
      assert values[0..] == values;
    }
  }
}
