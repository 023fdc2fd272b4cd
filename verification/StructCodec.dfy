/** Python's `struct` with the '<' prefix: little-endian fields without alignment, and
    pad bytes that `unpack` skips. */
module StructCodec {
  import opened Bytes

  datatype Format = Done | UInt(size: nat, rest: Format) | Pad(size: nat, rest: Format)

  function Width(fmt: Format): nat {
    if fmt.Done? then 0 else fmt.size + Width(fmt.rest)
  }

  /** How many values the format holds. */
  function Slots(fmt: Format): nat {
    match fmt
    case Done => 0
    case UInt(_, rest) => 1 + Slots(rest)
    case Pad(_, rest) => Slots(rest)
  }

  predicate Fits(fmt: Format, values: seq<nat>) {
    match fmt
    case Done => values == []
    case UInt(n, rest) => values != [] && values[0] < Pow256(n) && Fits(rest, values[1..])
    case Pad(_, rest) => Fits(rest, values)
  }

  function Zeroes(n: nat): (b: seq<byte>)
    ensures |b| == n
  {
    seq(n, i => 0)
  }

  function Pack(fmt: Format, values: seq<nat>): (b: seq<byte>)
    requires Fits(fmt, values)
    ensures |b| == Width(fmt)
  {
    match fmt
    case Done => []
    case UInt(n, rest) => Le(n, values[0]) + Pack(rest, values[1..])
    case Pad(n, rest) => Zeroes(n) + Pack(rest, values)
  }

  function Unpack(fmt: Format, b: seq<byte>): seq<nat>
    requires |b| == Width(fmt)
  {
    match fmt
    case Done => []
    case UInt(n, rest) => [FromLe(b[..n])] + Unpack(rest, b[n..])
    case Pad(n, rest) => Unpack(rest, b[n..])
  }

  /** `unpack` inverts `pack`. */
  lemma {:induction false} UnpackOfPack(fmt: Format, values: seq<nat>)
    requires Fits(fmt, values)
    ensures Unpack(fmt, Pack(fmt, values)) == values
  {
    match fmt
    case Done =>
    case UInt(n, rest) =>
      var b := Pack(fmt, values);
      assert b[..n] == Le(n, values[0]) && b[n..] == Pack(rest, values[1..]);
      FromLeOfLe(n, values[0]);
      UnpackOfPack(rest, values[1..]);
    case Pad(n, rest) =>
      assert Pack(fmt, values)[n..] == Pack(rest, values);
      UnpackOfPack(rest, values);
  }

  /** The same bytes outside the pads. */
  predicate AgreeOffPads(fmt: Format, a: seq<byte>, b: seq<byte>)
    requires |a| == |b| == Width(fmt)
  {
    match fmt
    case Done => true
    case UInt(n, rest) => a[..n] == b[..n] && AgreeOffPads(rest, a[n..], b[n..])
    case Pad(n, rest) => AgreeOffPads(rest, a[n..], b[n..])
  }

  /** Two byte strings parse equal exactly when they agree off the pads. */
  lemma {:induction false} ParseEqualIffAgree(fmt: Format, a: seq<byte>, b: seq<byte>)
    requires |a| == |b| == Width(fmt)
    ensures Unpack(fmt, a) == Unpack(fmt, b) <==> AgreeOffPads(fmt, a, b)
  {
    match fmt
    case Done =>
    case UInt(n, rest) =>
      ParseEqualIffAgree(rest, a[n..], b[n..]);
      LeOfFromLe(a[..n]);
      LeOfFromLe(b[..n]);
      var x, y := Unpack(fmt, a), Unpack(fmt, b);
      assert x[0] == FromLe(a[..n]) && y[0] == FromLe(b[..n]);
      assert x[1..] == Unpack(rest, a[n..]) && y[1..] == Unpack(rest, b[n..]);
    case Pad(n, rest) =>
      ParseEqualIffAgree(rest, a[n..], b[n..]);
  }

  /** Packing what was unpacked restores the bytes off the pads. */
  lemma {:induction false} PackOfUnpack(fmt: Format, b: seq<byte>)
    requires |b| == Width(fmt)
    ensures Fits(fmt, Unpack(fmt, b)) && AgreeOffPads(fmt, Pack(fmt, Unpack(fmt, b)), b)
  {
    match fmt
    case Done =>
    case UInt(n, rest) =>
      PackOfUnpack(rest, b[n..]);
      LeOfFromLe(b[..n]);
      assert Unpack(fmt, b)[1..] == Unpack(rest, b[n..]);
      var c := Pack(fmt, Unpack(fmt, b));
      assert c[..n] == b[..n] && c[n..] == Pack(rest, Unpack(rest, b[n..]));
    case Pad(n, rest) =>
      PackOfUnpack(rest, b[n..]);
      assert Pack(fmt, Unpack(fmt, b))[n..] == Pack(rest, Unpack(rest, b[n..]));
  }

  /** All pad bytes are zero, as memset leaves them. */
  predicate ZeroPads(fmt: Format, b: seq<byte>)
    requires |b| == Width(fmt)
  {
    match fmt
    case Done => true
    case UInt(n, rest) => ZeroPads(rest, b[n..])
    case Pad(n, rest) => b[..n] == Zeroes(n) && ZeroPads(rest, b[n..])
  }

  /** With zeroed pads the raw key and the identity determine one another: one flow has
      one raw key. */
  lemma ZeroPaddedKeyIsUnique(fmt: Format, a: seq<byte>, b: seq<byte>)
    requires |a| == |b| == Width(fmt) && ZeroPads(fmt, a) && ZeroPads(fmt, b)
    ensures Unpack(fmt, a) == Unpack(fmt, b) <==> a == b
  {
    ParseEqualIffAgree(fmt, a, b);
    if AgreeOffPads(fmt, a, b) {
      AgreeingZeroPadded(fmt, a, b);
    }
  }

  lemma {:induction false} AgreeingZeroPadded(fmt: Format, a: seq<byte>, b: seq<byte>)
    requires |a| == |b| == Width(fmt) && ZeroPads(fmt, a) && ZeroPads(fmt, b) && AgreeOffPads(fmt, a, b)
    ensures a == b
  {
    if !fmt.Done? {
      var n := fmt.size;
      AgreeingZeroPadded(fmt.rest, a[n..], b[n..]);
      assert a == a[..n] + a[n..] && b == b[..n] + b[n..];
    }
  }

  /** Without zeroed pads they do not: where a format has a pad byte, every key has a
      different raw key that parses to the same identity. */
  lemma {:induction false} PadSplitsAFlow(fmt: Format, a: seq<byte>) returns (b: seq<byte>)
    requires |a| == Width(fmt) && HasPad(fmt)
    ensures |b| == Width(fmt) && b != a && Unpack(fmt, b) == Unpack(fmt, a)
  {
    var n := fmt.size;
    if fmt.Pad? && n > 0 {
      b := [if a[0] == 0 then 1 else 0] + a[1..];
      assert b[n..] == a[n..] && b[0] != a[0];
    } else {
      var tail := PadSplitsAFlow(fmt.rest, a[n..]);
      b := a[..n] + tail;
      assert b[..n] == a[..n] && b[n..] == tail;
      assert a == a[..n] + a[n..];
    }
  }

  predicate HasPad(fmt: Format) {
    !fmt.Done? && ((fmt.Pad? && fmt.size > 0) || HasPad(fmt.rest))
  }
}
