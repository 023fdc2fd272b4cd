/** How the ingress collector settles on a source of delivered rows, and what it leaves
    on the host when it cannot start. */
module Attribution {
  import opened Wrappers
  import opened IngressSamples

  datatype Failure =
    | UnsupportedMode | NoInterface | TcFailed | NoCountersMap
    | BadMapId | NeedsMapId | UnsupportedHook | ReceiveFailed

  /** What a collector is asked for. */
  datatype Setup = Setup(
    requested: string, enricherGiven: bool, attach: bool, ifname: Option<string>,
    hook: string, receiveMapId: Option<int>, detachOnClose: bool)

  datatype TcOutcome = ObjectMissing | QdiscRefused | FilterRefused | FilterAdded

  /** What becomes of the receive loader: it cannot be started, stays silent, exits
      without a word, or reports a line. */
  datatype ReceiveOutcome = CannotStart | Silent | Exits | Garbled | Reports(backend: string, mapId: int)

  /** How the outside world answers. `deletes`: does `tc filter del` work on a filter
      that is there? */
  datatype World = World(
    defaultRoute: Option<string>, tc: TcOutcome, deletes: bool, countersMap: bool, receive: ReceiveOutcome)

  datatype Settlement = Settlement(mode: Mode, enricher: bool, reader: Option<int>, backend: Option<string>)

  const HOOKS := ["auto", "fentry", "kprobe"]
  const BACKENDS := ["fentry", "kprobe"]

  function ParseMode(s: string): Option<Mode> {
    if s == "none" then Some(Nothing)
    else if s == "auto" then Some(Auto)
    else if s == "cookie" then Some(Cookie)
    else if s == "legacy" then Some(Legacy)
    else None
  }

  /** A process enricher asks for at least the heuristic. */
  function Effective(s: Setup): Option<Mode> {
    var m := ParseMode(s.requested);
    if m == Some(Nothing) && s.enricherGiven then Some(Legacy) else m
  }

  predicate KnownInterface(s: Setup, w: World) {
    s.attach && (s.ifname.None? || s.ifname.value == "") ==> w.defaultRoute.Some?
  }

  /** The loader's report is accepted. */
  predicate Ready(o: ReceiveOutcome) {
    o.Reports? && o.backend in BACKENDS && o.mapId > 0
  }

  // --------------------------------------------------------------------- the host

  /** What a collector changes on the host: the clsact qdisc, the tc filter at its
      preference, and the receive loaders running. */
  class Host {
    var clsact: bool
    var filter: bool
    var loaders: nat

    constructor (filter: bool, loaders: nat)
      ensures !clsact && this.filter == filter && this.loaders == loaders
    {
      clsact, this.filter, this.loaders := false, filter, loaders;
    }
  }

  class TcAttachment {
    const host: Host
    var attached: bool

    constructor (host: Host)
      ensures this.host == host && !attached
    {
      this.host := host;
      attached := false;
    }

    method Attach(outcome: TcOutcome, deletes: bool) returns (ok: bool)
      modifies this, host
      ensures ok <==> outcome.FilterAdded?
      ensures ok ==> attached && host.filter && host.clsact
      ensures !ok ==> (host.filter ==> old(host.filter)) && host.loaders == old(host.loaders)
      ensures outcome.ObjectMissing? || outcome.QdiscRefused? ==>
              host.filter == old(host.filter) && host.clsact == old(host.clsact)
      ensures outcome.FilterRefused? ==> host.filter == (old(host.filter) && !deletes) && host.clsact
      ensures host.loaders == old(host.loaders)
    {
      if outcome.ObjectMissing? {
        return false;
      }
      if outcome.QdiscRefused? {
        return false;
      }
      host.clsact := true;
      var _ := Detach(true, deletes);
      if outcome.FilterRefused? {
        return false;
      }
      host.filter := true;
      attached := true;
      return true;
    }

    method Detach(ignoreMissing: bool, deletes: bool) returns (ok: bool)
      modifies this, host
      ensures host.filter == (old(host.filter) && !deletes)
      ensures host.loaders == old(host.loaders) && host.clsact == old(host.clsact)
      ensures ok <==> ignoreMissing || (old(host.filter) && deletes)
    {
      if host.filter && deletes {
        host.filter := false;
        attached := false;
        return true;
      }
      return ignoreMissing;
    }
  }

  class ReceiveAttachment {
    const host: Host
    var running: bool
    var status: Option<(string, int)>

    ghost predicate Valid()
      reads this, host
    {
      running ==> host.loaders > 0
    }

    constructor (host: Host)
      ensures this.host == host && !running && status == None
    {
      this.host := host;
      running, status := false, None;
    }

    /** Whatever goes wrong, a loader that was started is stopped again. */
    method Attach(outcome: ReceiveOutcome) returns (ok: bool)
      requires !running
      modifies this, host
      ensures Valid() && (ok <==> Ready(outcome)) && running == ok
      ensures host.loaders == old(host.loaders) + (if ok then 1 else 0)
      ensures host.filter == old(host.filter) && host.clsact == old(host.clsact)
      ensures ok ==> status == Some((outcome.backend, outcome.mapId))
    {
      if outcome.CannotStart? {
        return false;
      }
      running := true;
      host.loaders := host.loaders + 1;
      if outcome.Silent? {
        Detach();
        return false;
      }
      if outcome.Exits? {
        running := false;
        host.loaders := host.loaders - 1;
        return false;
      }
      if !Ready(outcome) {
        Detach();
        return false;
      }
      status := Some((outcome.backend, outcome.mapId));
      return true;
    }

    method Detach()
      requires Valid()
      modifies this, host
      ensures !running && status == None
      ensures host.loaders == old(host.loaders) - (if old(running) then 1 else 0)
      ensures host.filter == old(host.filter) && host.clsact == old(host.clsact)
    {
      var process := running;
      running := false;
      status := None;
      if process {
        host.loaders := host.loaders - 1;
      }
    }
  }

  /** The channel collectors accept any report with a positive map id. */
  predicate ChannelReady(o: ReceiveOutcome) {
    o.Reports? && o.mapId > 0
  }

  /** The channel collectors' attachment. It differs from the receive side's in one
      branch: a loader whose report is not accepted is not stopped. */
  class ChannelAttachment {
    const host: Host
    var running: bool
    var status: Option<int>

    constructor (host: Host)
      ensures this.host == host && !running && status == None
    {
      this.host := host;
      running, status := false, None;
    }

    /** A failed start leaves a loader running exactly when it had reported something
        that is not a status line. */
    method Attach(outcome: ReceiveOutcome, oldKernel: bool) returns (ok: bool)
      requires !running
      modifies this, host
      ensures ok <==> !oldKernel && outcome.Reports? && outcome.mapId > 0
      ensures ok ==> status == Some(outcome.mapId) && running && host.loaders == old(host.loaders) + 1
      ensures !ok ==> host.loaders == old(host.loaders) + (if running then 1 else 0)
      ensures !ok ==> (running <==> !oldKernel && (outcome.Garbled? || outcome.Reports?))
      ensures host.filter == old(host.filter) && host.clsact == old(host.clsact)
    {
      if oldKernel || outcome.CannotStart? {
        return false;
      }
      running := true;
      host.loaders := host.loaders + 1;
      if outcome.Silent? {
        Detach();
        return false;
      }
      if outcome.Exits? {
        running := false;
        host.loaders := host.loaders - 1;
        return false;
      }
      if !ChannelReady(outcome) {
        return false;
      }
      status := Some(outcome.mapId);
      return true;
    }

    method Detach()
      requires running ==> host.loaders > 0
      modifies this, host
      ensures !running && status == None
      ensures host.loaders == old(host.loaders) - (if old(running) then 1 else 0)
      ensures host.filter == old(host.filter) && host.clsact == old(host.clsact)
    {
      var process := running;
      running := false;
      status := None;
      if process {
        host.loaders := host.loaders - 1;
      }
    }
  }

  // ---------------------------------------------------------------- what is settled

  /** Why a collector cannot start, the first reason that applies. */
  function Refusal(s: Setup, w: World): Option<Failure> {
    if Effective(s).None? then Some(UnsupportedMode)
    else if !KnownInterface(s, w) then Some(NoInterface)
    else if s.attach && !w.tc.FilterAdded? then Some(TcFailed)
    else if !w.countersMap then Some(NoCountersMap)
    else DeliveryRefusal(Effective(s).value, s, w)
  }

  function DeliveryRefusal(m: Mode, s: Setup, w: World): Option<Failure> {
    if m == Nothing || m == Legacy then None
    else if s.attach then
      if s.hook !in HOOKS then Some(UnsupportedHook)
      else if m == Cookie && !Ready(w.receive) then Some(ReceiveFailed)
      else None
    else if s.receiveMapId.Some? then
      if s.receiveMapId.value <= 0 then Some(BadMapId) else None
    else if m == Cookie then Some(NeedsMapId)
    else None
  }

  /** The map that delivered rows come from, if there is one to read. */
  function DeliveredMap(s: Setup, w: World): Option<int> {
    if Effective(s) != Some(Auto) && Effective(s) != Some(Cookie) then None
    else if !s.attach then s.receiveMapId
    else if Ready(w.receive) then Some(w.receive.mapId)
    else None
  }

  class Attributor {
    const host: Host
    const tc: TcAttachment
    var mode: Mode
    var enricher: bool
    var reader: Option<int>
    var backend: Option<string>
    var receive: ReceiveAttachment?

    ghost predicate Valid()
      reads this, tc, receive, host
    {
      && tc.host == host
      && (receive != null ==> receive.host == host && receive.running && host.loaders > 0)
    }

    /** A settled mode is never auto; there is a delivered reader exactly in cookie mode,
        and an enricher in every mode but none. */
    ghost predicate Settled()
      reads this
    {
      && mode != Auto
      && (reader.Some? <==> mode == Cookie)
      && (reader.Some? ==> reader.value > 0)
      && (backend.Some? <==> mode == Cookie)
      && (enricher <==> mode != Nothing)
    }

    constructor (host: Host, mode: Mode, enricher: bool)
      ensures this.host == host && this.mode == mode && this.enricher == enricher
      ensures reader == None && backend == None && receive == null && fresh(tc) && tc.host == host
    {
      this.host := host;
      this.tc := new TcAttachment(host);
      this.mode, this.enricher, this.reader, this.backend, this.receive := mode, enricher, None, None, null;
    }

    /** The collector's constructor. A failure leaves no receive loader behind, and no
        filter it added, unless the filter cannot be deleted; without `attach` nothing
        on the host changes at all. */
    static method Create(host: Host, s: Setup, w: World) returns (r: Result<Attributor, Failure>)
      modifies host
      ensures r.Err? <==> Refusal(s, w).Some?
      ensures r.Err? ==> r.error == Refusal(s, w).value
      ensures r.Ok? ==> fresh(r.value) && fresh(r.value.tc) && r.value.host == host
      ensures r.Ok? ==> r.value.Valid() && r.value.Settled()
      ensures r.Ok? ==> r.value.reader == DeliveredMap(s, w)
      ensures r.Ok? ==> (r.value.mode == Nothing <==> s.requested == "none" && !s.enricherGiven)
      ensures r.Ok? ==> r.value.backend == if r.value.reader.None? then None
                                           else if s.attach then Some(w.receive.backend) else Some("existing-map")
      ensures r.Ok? && r.value.receive != null ==> fresh(r.value.receive)
      ensures r.Ok? ==> (r.value.receive != null <==> s.attach && r.value.reader.Some?)
      ensures r.Ok? ==> host.loaders == old(host.loaders) + (if s.attach && r.value.reader.Some? then 1 else 0)
      ensures r.Ok? && s.attach ==> host.filter
      ensures r.Err? ==> host.loaders == old(host.loaders) && (host.filter ==> old(host.filter) || !w.deletes)
      ensures r.Err? && r.error !in {UnsupportedMode, NoInterface} && s.attach && w.deletes ==> !host.filter
      ensures !s.attach ==> host.filter == old(host.filter) && host.clsact == old(host.clsact)
      ensures !s.attach ==> host.loaders == old(host.loaders)
    {
      var effective := Effective(s);
      if effective.None? {
        return Err(UnsupportedMode);
      }
      if !KnownInterface(s, w) {
        return Err(NoInterface);
      }
      var a := new Attributor(host, effective.value, s.enricherGiven);

      var failure := None;
      if s.attach {
        var ok := a.tc.Attach(w.tc, w.deletes);
        if !ok {
          failure := Some(TcFailed);
        }
      }
      if failure.None? && !w.countersMap {
        failure := Some(NoCountersMap);
      }
      if failure.None? {
        failure := a.ConfigureDelivery(s, w);
      }

      if failure.Some? {
        if a.receive != null {
          a.receive.Detach();
        }
        if s.attach {
          var _ := a.tc.Detach(true, w.deletes);
        }
        return Err(failure.value);
      }
      return Ok(a);
    }

    method ConfigureDelivery(s: Setup, w: World) returns (failure: Option<Failure>)
      requires Valid() && receive == null && reader == None && backend == None
      requires Effective(s) == Some(mode) && enricher == s.enricherGiven
      modifies this, host
      ensures Valid() && failure == DeliveryRefusal(old(mode), s, w)
      ensures failure.None? ==> Settled() && reader == DeliveredMap(s, w) && (mode == Nothing <==> old(mode) == Nothing)
      ensures failure.None? ==> backend == if reader.None? then None
                                           else if s.attach then Some(w.receive.backend) else Some("existing-map")
      ensures receive != null ==> fresh(receive)
      ensures host.loaders == old(host.loaders) + (if receive != null then 1 else 0)
      ensures failure.None? ==> (receive != null <==> s.attach && reader.Some?)
      ensures host.filter == old(host.filter) && host.clsact == old(host.clsact)
    {
      if mode == Nothing {
        return None;
      }
      enricher := true;
      if mode == Legacy {
        return None;
      }

      if !s.attach {
        if s.receiveMapId.Some? {
          if s.receiveMapId.value <= 0 {
            return Some(BadMapId);
          }
          reader := s.receiveMapId;
          mode := Cookie;
          backend := Some("existing-map");
          return None;
        }
        if mode == Auto {
          FallBackToLegacy();
          return None;
        }
        return Some(NeedsMapId);
      }

      if s.hook !in HOOKS {
        return Some(UnsupportedHook);
      }
      var attachment := new ReceiveAttachment(host);
      var ok := attachment.Attach(w.receive);
      if !ok {
        if mode == Auto {
          FallBackToLegacy();
          return None;
        }
        return Some(ReceiveFailed);
      }

      receive := attachment;
      reader := Some(w.receive.mapId);
      mode := Cookie;
      backend := Some(w.receive.backend);
      return None;
    }

    method FallBackToLegacy()
      modifies this
      ensures mode == Legacy && backend == None
      ensures enricher == old(enricher) && reader == old(reader) && receive == old(receive)
    {
      mode := Legacy;
      backend := None;
    }

    /** `close`. It deletes the filter whether or not this collector added it. */
    method Close(s: Setup, w: World)
      requires Valid()
      modifies this, tc, receive, host
      ensures !s.detachOnClose ==> host.filter == old(host.filter) && host.loaders == old(host.loaders)
      ensures s.detachOnClose ==> host.filter == (old(host.filter) && !w.deletes)
      ensures s.detachOnClose ==> host.loaders == old(host.loaders) - (if receive != null then 1 else 0)
      ensures receive == old(receive)
    {
      if s.detachOnClose {
        if receive != null {
          receive.Detach();
        }
        var _ := tc.Detach(true, w.deletes);
      }
    }
  }

  /** A collector's whole life. It leaves the receive loaders as it found them, unless it
      is told to stay attached. */
  method Life(host: Host, s: Setup, w: World) returns (started: bool)
    modifies host
    ensures started <==> Refusal(s, w).None?
    ensures s.detachOnClose ==> host.loaders == old(host.loaders)
    ensures s.detachOnClose && w.deletes && started ==> !host.filter
  {
    var r := Attributor.Create(host, s, w);
    if r.Err? {
      return false;
    }
    r.value.Close(s, w);
    return true;
  }

  // --------------------------------------------------------------------- who can start

  /** A report that the receive side accepts: from a backend it knows, with a map. */
  predicate Accepted(o: ReceiveOutcome) {
    o.Reports? && (o.backend == "fentry" || o.backend == "kprobe") && o.mapId > 0
  }

  predicate KnownHook(hook: string) {
    hook == "auto" || hook == "fentry" || hook == "kprobe"
  }

  /** What the four modes have in common. */
  predicate CanReadIngress(s: Setup, w: World) {
    && (s.attach && (s.ifname.None? || s.ifname == Some("")) ==> w.defaultRoute.Some?)
    && (s.attach ==> w.tc.FilterAdded?) && w.countersMap
  }

  lemma TheWordsDiffer()
    ensures "none" != "auto" && "none" != "cookie" && "none" != "legacy"
    ensures "auto" != "cookie" && "auto" != "legacy" && "cookie" != "legacy"
  {
    assert "none"[0] != "auto"[0] && "none"[0] != "cookie"[0] && "none"[0] != "legacy"[0];
    assert "auto"[0] != "cookie"[0] && "auto"[0] != "legacy"[0] && "cookie"[0] != "legacy"[0];
  }

  /** Whatever is asked for, and however the world answers: the collector starts if and only
      if the ingress side works and what the mode asks of the receive side holds.  Modes
      `none` and `legacy` ask nothing; `auto` asks that the caller made no mistake; and
      `cookie` that there is a map. */
  lemma StartsIff(s: Setup, w: World)
    ensures Refusal(s, w).None? <==>
            && CanReadIngress(s, w)
            && (|| s.requested == "none" || s.requested == "legacy"
                || (s.requested == "auto" && if s.attach then KnownHook(s.hook)
                                             else s.receiveMapId.Some? ==> s.receiveMapId.value > 0)
                || (s.requested == "cookie" && if s.attach then KnownHook(s.hook) && Accepted(w.receive)
                                               else s.receiveMapId.Some? && s.receiveMapId.value > 0))
  {
    TheWordsDiffer();
  }

  /** It then reads a delivered map if and only if the mode is `auto` or `cookie` and there is
      one: the loader's, or the caller's. */
  lemma ReadsDeliveredIff(s: Setup, w: World, id: int)
    ensures DeliveredMap(s, w) == Some(id) <==>
            && (s.requested == "auto" || s.requested == "cookie")
            && (if s.attach then Accepted(w.receive) && w.receive.mapId == id else s.receiveMapId == Some(id))
  {
    TheWordsDiffer();
  }

  /** A refusal gives the first reason there is, in this order. */
  lemma FirstReason(s: Setup, w: World)
    requires Refusal(s, w).Some?
    ensures var known :=
              s.requested == "none" || s.requested == "auto" || s.requested == "cookie" || s.requested == "legacy";
            var reached := s.attach && s.ifname.None? ==> w.defaultRoute.Some?;
            var f := Refusal(s, w).value;
            && (f == UnsupportedMode <==> !known)
            && (f == NoInterface ==> known && s.attach && w.defaultRoute.None?)
            && (f == TcFailed ==> known && reached && s.attach && !w.tc.FilterAdded?)
            && (f == NoCountersMap ==> known && reached && (s.attach ==> w.tc.FilterAdded?) && !w.countersMap)
            && (f in {UnsupportedHook, ReceiveFailed, BadMapId, NeedsMapId} <==> known && CanReadIngress(s, w))
            && (f == UnsupportedHook ==> s.attach && !KnownHook(s.hook))
            && (f == ReceiveFailed ==> s.attach && KnownHook(s.hook) && s.requested == "cookie" && !Accepted(w.receive))
            && (f == BadMapId ==> !s.attach && s.receiveMapId.Some? && s.receiveMapId.value <= 0)
            && (f == NeedsMapId ==> !s.attach && s.receiveMapId.None? && s.requested == "cookie")
  {
    TheWordsDiffer();
  }

  // ------------------------------------------------------------------ automatic mode

  /** Asked for `auto`, the collector does without the receive side: whatever the loader
      does, it starts.  Two mistakes of the caller still stop it: a hook that does not
      exist, and a map id that is not positive. */
  lemma AutoStartsIff(s: Setup, w: World)
    requires s.requested == "auto"
    ensures Refusal(s, w).None? <==>
            && KnownInterface(s, w) && (s.attach ==> w.tc.FilterAdded?) && w.countersMap
            && (s.attach ==> KnownHook(s.hook))
            && (!s.attach && s.receiveMapId.Some? ==> s.receiveMapId.value > 0)
  {
    assert s.requested[0] != "none"[0];
  }

  /** Asked for `cookie`, it starts only with a delivered map to read, so it never falls
      back; and what it then reads is what `auto` would have read. */
  lemma CookieNeverFallsBack(s: Setup, w: World)
    requires s.requested == "cookie" && Refusal(s, w).None?
    ensures DeliveredMap(s, w).Some?
    ensures Refusal(s.(requested := "auto"), w).None? && DeliveredMap(s.(requested := "auto"), w) == DeliveredMap(s, w)
  {
    assert s.requested[0] != "none"[0] && s.requested[0] != "auto"[0];
    assert "auto"[0] != "none"[0];
  }
}
