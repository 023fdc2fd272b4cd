/** The private socket cookies of the kprobe hook: every CPU that meets an unknown
    socket proposes a random cookie of its own, and the map decides. */
module CookieMap {
  import CookieBits

  datatype SocketKey = SocketKey(address: nat, inode: nat)

  datatype Pc = Idle | AtLookup(key: SocketKey) | AtInsert(key: SocketKey) | AtRelookup(key: SocketKey)

  datatype Returned = Returned(key: SocketKey, cookie: bv64)

  /** What the hook draws when it has to propose, and whether the LRU map admits it. */
  datatype Draw = Draw(high: bv32, low: bv32, now: bv64, admitted: bool)

  datatype Event =
    | Call(cpu: nat, key: SocketKey)
    | Advance(cpu: nat, draw: Draw)
    | Evict(key: SocketKey)

  /** `returned` lists the results of all calls so far. */
  datatype State = State(stored: map<SocketKey, bv64>, pcs: seq<Pc>, returned: seq<Returned>)

  function Candidate(d: Draw): bv64 {
    CookieBits.Candidate(d.high, d.low, d.now)
  }

  function Return(s: State, cpu: nat, key: SocketKey, cookie: bv64): State
    requires cpu < |s.pcs|
  {
    s.(pcs := s.pcs[cpu := Idle], returned := s.returned + [Returned(key, cookie)])
  }

  function Advanced(s: State, cpu: nat, d: Draw): State
    requires cpu < |s.pcs|
  {
    match s.pcs[cpu]
    case Idle => s
    case AtLookup(key) =>
      if key in s.stored then Return(s, cpu, key, s.stored[key]) else s.(pcs := s.pcs[cpu := AtInsert(key)])
    case AtInsert(key) =>
      State(if key !in s.stored && d.admitted then s.stored[key := Candidate(d)] else s.stored,
            s.pcs[cpu := AtRelookup(key)], s.returned)
    case AtRelookup(key) =>
      Return(s, cpu, key, if key in s.stored then s.stored[key] else 0)
  }

  function Step(s: State, e: Event): State {
    match e
    case Call(cpu, key) => if cpu < |s.pcs| && s.pcs[cpu].Idle? then s.(pcs := s.pcs[cpu := AtLookup(key)]) else s
    case Advance(cpu, d) => if cpu < |s.pcs| then Advanced(s, cpu, d) else s
    case Evict(key) => s.(stored := s.stored - {key})
  }

  function Exec(s: State, events: seq<Event>): State {
    if events == [] then s else Step(Exec(s, events[..|events| - 1]), events[|events| - 1])
  }

  function Boot(n: nat): State {
    State(map[], seq(n, i => Idle), [])
  }

  lemma CandidateIsOdd(d: Draw)
    ensures Candidate(d) & 1 == 1 && Candidate(d) != 0
  {
  }

  ghost predicate StoredAreNonzero(s: State) {
    forall k :: k in s.stored ==> s.stored[k] != 0
  }

  /** Zero is never stored, so a zero result means that the map gave no cookie. */
  lemma {:induction false} StoredCookiesAreNonzero(n: nat, events: seq<Event>)
    ensures StoredAreNonzero(Exec(Boot(n), events))
  {
    if events != [] {
      StoredCookiesAreNonzero(n, events[..|events| - 1]);
      var e := events[|events| - 1];
      if e.Advance? {
        CandidateIsOdd(e.draw);
      }
    }
  }

  /** The results for `key` from the `since`-th on are the stored cookie, or zero. */
  ghost predicate Settled(s: State, key: SocketKey, since: nat) {
    forall i :: since <= i < |s.returned| && s.returned[i].key == key && s.returned[i].cookie != 0 ==>
      key in s.stored && s.returned[i].cookie == s.stored[key]
  }

  lemma {:induction false} StaysSettled(s: State, events: seq<Event>, key: SocketKey)
    requires Evict(key) !in events
    ensures |s.returned| <= |Exec(s, events).returned| && Settled(Exec(s, events), key, |s.returned|)
  {
    if events != [] {
      StaysSettled(s, events[..|events| - 1], key);
      var t := Exec(s, events[..|events| - 1]);
      var e := events[|events| - 1];
      assert e in events;
      SettledStep(t, e, key, |s.returned|);
    }
  }

  lemma SettledStep(t: State, e: Event, key: SocketKey, since: nat)
    requires since <= |t.returned| && Settled(t, key, since) && e != Evict(key)
    ensures |t.returned| <= |Step(t, e).returned| && Settled(Step(t, e), key, since)
  {
    var u := Step(t, e);
    assert key in t.stored ==> key in u.stored && u.stored[key] == t.stored[key];
    assert forall i :: 0 <= i < |t.returned| ==> u.returned[i] == t.returned[i];
  }

  /** From any state, through any interleaving that does not evict the key: all calls
      for the socket that return a cookie return the same one. */
  lemma CallsAgree(s: State, events: seq<Event>, key: SocketKey, i: nat, j: nat)
    requires Evict(key) !in events
    requires |s.returned| <= i < |Exec(s, events).returned| && |s.returned| <= j < |Exec(s, events).returned|
    requires Exec(s, events).returned[i].key == key && Exec(s, events).returned[j].key == key
    requires Exec(s, events).returned[i].cookie != 0 && Exec(s, events).returned[j].cookie != 0
    ensures Exec(s, events).returned[i].cookie == Exec(s, events).returned[j].cookie
  {
    StaysSettled(s, events, key);
  }

  /** One call after an eviction: the socket gets the cookie of the new draw, so calls on
      both sides of an eviction agree only if the draws do. */
  lemma EvictionDrawsAgain(s: State, key: SocketKey, d: Draw)
    requires |s.pcs| == 1 && s.pcs[0].Idle? && d.admitted
    ensures var called := Step(Step(s, Evict(key)), Call(0, key));
            var t := Step(Step(Step(called, Advance(0, d)), Advance(0, d)), Advance(0, d));
            t.returned == s.returned + [Returned(key, Candidate(d))]
  {
    var s1 := Step(Step(s, Evict(key)), Call(0, key));
    var s2 := Step(s1, Advance(0, d));
    assert s2.pcs[0] == AtInsert(key);
    var s3 := Step(s2, Advance(0, d));
    assert s3.stored[key] == Candidate(d);
  }

  /** Four steps end a call that nothing interrupts. */
  lemma CallEnds(stored: map<SocketKey, bv64>, key: SocketKey, d: Draw)
    ensures var called := Step(State(stored, [Idle], []), Call(0, key));
            var t := Step(Step(Step(called, Advance(0, d)), Advance(0, d)), Advance(0, d));
            && t.stored == Kept(stored, key, d)
            && t.returned == [Returned(key, if key in t.stored then t.stored[key] else 0)]
  {
    var s1 := Step(State(stored, [Idle], []), Call(0, key));
    var s2 := Step(s1, Advance(0, d));
    if key !in stored {
      assert s2.pcs == [AtInsert(key)];
      var s3 := Step(s2, Advance(0, d));
      assert s3.pcs == [AtRelookup(key)] && s3.stored == Kept(stored, key, d);
    } else {
      assert s2.pcs == [Idle] && s2.stored == Kept(stored, key, d);
    }
  }

  /** A cookie that is there stays; a new one is stored if the map admits it. */
  function Kept(stored: map<SocketKey, bv64>, key: SocketKey, d: Draw): map<SocketKey, bv64> {
    if key in stored || !d.admitted then stored else stored[key := Candidate(d)]
  }

  method Propose(d: Draw) returns (candidate: bv64)
    ensures candidate == Candidate(d)
  {
    candidate := ((d.high as bv64) << 32) | (d.low as bv64);
    candidate := candidate ^ d.now;
    candidate := candidate | 1;
  }

  /** `kprobe_socket_cookie` as written, for one CPU that nothing interrupts. */
  class KprobeCookies {
    var stored: map<SocketKey, bv64>

    method KprobeSocketCookie(key: SocketKey, d: Draw) returns (result: bv64)
      modifies this
      ensures result == if key in old(stored) then old(stored)[key] else if d.admitted then Candidate(d) else 0
      ensures stored == Kept(old(stored), key, d)
      ensures var called := Step(State(old(stored), [Idle], []), Call(0, key));
              var t := Step(Step(Step(called, Advance(0, d)), Advance(0, d)), Advance(0, d));
              stored == t.stored && t.returned == [Returned(key, result)]
    {
      CallEnds(stored, key, d);
      if key in stored {
        return stored[key];
      }
      var candidate := Propose(d);
      if key !in stored && d.admitted {
        stored := stored[key := candidate];
      }
      result := if key in stored then stored[key] else 0;
    }
  }
}
