/** The two BPF loaders: what they acquire, and that they release it. */
module Loaders {
  import opened Wrappers

  /** Everything a loader can hold: BPF objects, links and heap blocks, by number. */
  class Kernel {
    var next: nat
    var live: set<nat>
    var released: seq<nat>

    /** Every number ever handed out is either live or released, and released once. */
    ghost predicate Valid()
      reads this
    {
      && (forall r :: r in live ==> r < next)
      && (forall r :: 0 <= r < next ==> r in live || r in released)
      && (forall i :: 0 <= i < |released| ==> released[i] < next && released[i] !in live)
      && (forall i, j :: 0 <= i < j < |released| ==> released[i] != released[j])
    }

    constructor ()
      ensures Valid() && live == {} && next == 0
    {
      next, live, released := 0, {}, [];
    }

    method Acquire() returns (r: nat)
      requires Valid()
      modifies this
      ensures Valid() && r == old(next) && next == r + 1
      ensures live == old(live) + {r} && r !in old(live) && released == old(released)
    {
      r := next;
      next := next + 1;
      live := live + {r};
    }

    /** Releasing what is not live, or is released already, is not possible. */
    method Release(r: nat)
      requires Valid() && r in live
      modifies this
      ensures Valid() && next == old(next)
      ensures live == old(live) - {r} && released == old(released) + [r]
    {
      live := live - {r};
      released := released + [r];
    }
  }

  /** What can go wrong while loading; 0 or false is success. There is one `attach`
      error and one `realloc` outcome for each program of the object. */
  datatype Faults = Faults(
    openError: int, loadError: int, attachErrors: seq<int>, reallocFails: seq<bool>,
    mapMissing: bool, infoErrno: int, mapId: nat)

  const ENOENT := 2
  const ENOMEM := 12
  const EINVAL := 22

  /** The error of the first program, from the `i`-th on, that does not attach. */
  function AttachError(f: Faults, i: nat): int
    requires |f.attachErrors| == |f.reallocFails|
    decreases |f.attachErrors| - i
  {
    if i >= |f.attachErrors| then 0
    else if f.attachErrors[i] != 0 then f.attachErrors[i]
    else if f.reallocFails[i] then -ENOMEM
    else AttachError(f, i + 1)
  }

  /** What `load_tcp_channel` reports: the first thing that goes wrong. */
  function LoadError(f: Faults): int
    requires |f.attachErrors| == |f.reallocFails|
  {
    if f.openError != 0 then f.openError
    else if f.loadError != 0 then f.loadError
    else if AttachError(f, 0) != 0 then AttachError(f, 0)
    else if f.mapMissing then -ENOENT
    else -f.infoErrno
  }

  /** It reports success if and only if nothing goes wrong; and else the error of the first
      step that does: to open, to load, to attach or remember one program after the other,
      to find the map (-2, ENOENT), to ask for its id. */
  lemma LoadErrorIff(f: Faults)
    requires |f.attachErrors| == |f.reallocFails|
    ensures var attached := forall i :: 0 <= i < |f.attachErrors| ==> f.attachErrors[i] == 0 && !f.reallocFails[i];
            && (LoadError(f) == 0 <==>
                  f.openError == 0 && f.loadError == 0 && attached && !f.mapMissing && f.infoErrno == 0)
            && (f.openError != 0 ==> LoadError(f) == f.openError)
            && (f.openError == 0 && f.loadError != 0 ==> LoadError(f) == f.loadError)
            && (f.openError == 0 && f.loadError == 0 && attached ==>
                  LoadError(f) == if f.mapMissing then -2 else -f.infoErrno)
    ensures forall i :: 0 <= i < |f.attachErrors| && FirstToFail(f, i) && f.openError == 0 && f.loadError == 0 ==>
              LoadError(f) == if f.attachErrors[i] != 0 then f.attachErrors[i] else -12
  {
    AttachErrorIff(f, 0);
  }

  /** Program `i` is the first that does not attach, or whose link cannot be remembered. */
  predicate FirstToFail(f: Faults, i: nat)
    requires i < |f.attachErrors| == |f.reallocFails|
  {
    && (f.attachErrors[i] != 0 || f.reallocFails[i])
    && forall j :: 0 <= j < i ==> f.attachErrors[j] == 0 && !f.reallocFails[j]
  }

  lemma {:induction false} AttachErrorIff(f: Faults, i: nat)
    requires |f.attachErrors| == |f.reallocFails|
    requires forall j :: 0 <= j < i && j < |f.attachErrors| ==> f.attachErrors[j] == 0 && !f.reallocFails[j]
    ensures AttachError(f, i) == 0 <==>
            forall j :: 0 <= j < |f.attachErrors| ==> f.attachErrors[j] == 0 && !f.reallocFails[j]
    ensures forall j :: 0 <= j < |f.attachErrors| && FirstToFail(f, j) ==>
              AttachError(f, i) == if f.attachErrors[j] != 0 then f.attachErrors[j] else -12
    decreases |f.attachErrors| - i
  {
    if i < |f.attachErrors| && f.attachErrors[i] == 0 && !f.reallocFails[i] {
      AttachErrorIff(f, i + 1);
    }
  }

  /** `struct loaded_state` of the channel loaders. `links` is the content of the heap
      block `block`, which realloc grows. */
  class LoadedState {
    const kernel: Kernel
    var object_: Option<nat>
    var block: Option<nat>
    var links: seq<nat>
    var mapId: nat

    ghost predicate Empty()
      reads this
    {
      object_ == None && block == None && links == []
    }

    function Held(): set<nat>
      reads this
    {
      (set r | r in links) + (if block.Some? then {block.value} else {})
        + (if object_.Some? then {object_.value} else {})
    }

    /** What the state holds is live, and held once. */
    ghost predicate Valid()
      reads this, kernel
    {
      && kernel.Valid()
      && Held() <= kernel.live
      && (forall i, j :: 0 <= i < j < |links| ==> links[i] != links[j])
      && (block.Some? ==> block.value !in links)
      && (object_.Some? ==> object_.value !in links && object_ != block)
      && (block.None? ==> links == [])
    }

    constructor (kernel: Kernel)
      requires kernel.Valid()
      ensures this.kernel == kernel && Empty() && Valid()
    {
      this.kernel := kernel;
      object_, block, links, mapId := None, None, [], 0;
    }

    method DestroyState()
      requires Valid()
      modifies this, kernel
      ensures Valid() && Empty() && mapId == 0
      ensures kernel.live == old(kernel.live) - old(Held())
      ensures kernel.next == old(kernel.next)
    {
      if block.Some? {
        for index := 0 to |links|
          invariant kernel.Valid() && kernel.next == old(kernel.next)
          invariant links == old(links) && block == old(block) && object_ == old(object_)
          invariant kernel.live == old(kernel.live) - set r | r in links[..index]
        {
          assert links[index] !in links[..index];
          assert links[..index + 1] == links[..index] + [links[index]];
          kernel.Release(links[index]);
        }
        assert links[..|links|] == links;
        kernel.Release(block.value);
      }
      if object_.Some? {
        kernel.Release(object_.value);
      }
      object_, block, links, mapId := None, None, [], 0;
    }

    /** `realloc` may fail, and then leaves the old block as it was. */
    method AppendLink(link: nat, reallocFails: bool) returns (error: int)
      requires Valid() && link in kernel.live && link !in Held()
      modifies this, kernel
      ensures Valid() && object_ == old(object_)
      ensures error == if reallocFails then -ENOMEM else 0
      ensures error != 0 ==> kernel.live == old(kernel.live) && links == old(links) && block == old(block)
      ensures error == 0 ==> links == old(links) + [link] && block.Some?
      ensures error == 0 ==> kernel.live - Held() == old(kernel.live) - old(Held()) - {link}
    {
      if reallocFails {
        return -ENOMEM;
      }
      if block.Some? {
        kernel.Release(block.value);
      }
      var grown := kernel.Acquire();
      block := Some(grown);
      links := links + [link];
      return 0;
    }

    method LoadTcpChannel(f: Faults) returns (error: int)
      requires Valid() && Empty() && |f.attachErrors| == |f.reallocFails|
      modifies this, kernel
      ensures Valid() && error == LoadError(f)
      ensures error != 0 ==> Empty() && kernel.live == old(kernel.live)
      ensures error == 0 ==> object_.Some? && |links| == |f.attachErrors| && mapId == f.mapId
      ensures error == 0 ==> kernel.live - Held() == old(kernel.live)
    {
      if f.openError != 0 {
        object_ := None;
        return f.openError;
      }
      var obj := kernel.Acquire();
      object_ := Some(obj);

      if f.loadError != 0 {
        DestroyState();
        return f.loadError;
      }

      var program := 0;
      while program < |f.attachErrors|
        invariant 0 <= program <= |f.attachErrors|
        invariant Valid() && object_.Some? && |links| == program
        invariant AttachError(f, program) == AttachError(f, 0)
        invariant kernel.live - Held() == old(kernel.live)
      {
        if f.attachErrors[program] != 0 {
          DestroyState();
          return f.attachErrors[program];
        }
        var link := kernel.Acquire();
        error := AppendLink(link, f.reallocFails[program]);
        if error != 0 {
          kernel.Release(link);
          DestroyState();
          return error;
        }
        program := program + 1;
      }

      if f.mapMissing {
        DestroyState();
        return -ENOENT;
      }
      if f.infoErrno != 0 {
        DestroyState();
        return -f.infoErrno;
      }
      mapId := f.mapId;
      return 0;
    }
  }

  /** The channel loader's `main`: whatever goes wrong, and after a normal stop, nothing
      it acquired is still live, and all of it is in the release log, which by the
      kernel's invariant names nothing twice. */
  method ChannelLoaderMain(kernel: Kernel, f: Faults) returns (exitCode: int, reported: Option<nat>)
    requires kernel.Valid() && |f.attachErrors| == |f.reallocFails|
    modifies kernel
    ensures kernel.Valid() && kernel.live == old(kernel.live)
    ensures forall r :: old(kernel.next) <= r < kernel.next ==> r in kernel.released
    ensures exitCode == (if LoadError(f) == 0 then 0 else 1)
    ensures reported == (if LoadError(f) == 0 then Some(f.mapId) else None)
  {
    var state := new LoadedState(kernel);
    var error := state.LoadTcpChannel(f);
    if error != 0 {
      return 1, None;
    }
    reported := Some(state.mapId);
    state.DestroyState();
    return 0, reported;
  }

  // ------------------------------------------------------------- the receive loader

  datatype Backend = Fentry | Kprobe

  datatype Mode = Auto | OnlyFentry | OnlyKprobe

  function ProgramName(b: Backend): string {
    if b == Fentry then "udp_recv_fentry" else "udp_recv_kprobe"
  }

  /** One attempt with one backend: the programs the object declares, and what can go
      wrong. */
  datatype Attempt = Attempt(
    openError: int, programs: seq<string>, loadError: int, attachError: int,
    mapMissing: bool, infoErrno: int, mapId: nat)

  function BackendError(b: Backend, a: Attempt): int {
    if a.openError != 0 then a.openError
    else if ProgramName(b) !in a.programs then -ENOENT
    else if a.loadError != 0 then a.loadError
    else if a.attachError != 0 then a.attachError
    else if a.mapMissing then -ENOENT
    else -a.infoErrno
  }

  /** An attempt succeeds if and only if nothing goes wrong and the object has the backend's
      program; else it reports the first thing that goes wrong. */
  lemma BackendErrorIff(b: Backend, a: Attempt)
    ensures var found := (if b.Kprobe? then "udp_recv_kprobe" else "udp_recv_fentry") in a.programs;
            && (BackendError(b, a) == 0 <==>
                  && a.openError == 0 && found && a.loadError == 0 && a.attachError == 0
                  && !a.mapMissing && a.infoErrno == 0)
            && (a.openError != 0 ==> BackendError(b, a) == a.openError)
            && (a.openError == 0 && !found ==> BackendError(b, a) == -2)
            && (a.openError == 0 && found && a.loadError != 0 ==> BackendError(b, a) == a.loadError)
            && (a.openError == 0 && found && a.loadError == 0 ==>
                  && (a.attachError != 0 ==> BackendError(b, a) == a.attachError)
                  && (a.attachError == 0 ==> BackendError(b, a) == if a.mapMissing then -2 else -a.infoErrno))
  {
  }

  class ReceiveState {
    const kernel: Kernel
    var object_: Option<nat>
    var link: Option<nat>
    var mapId: nat
    /** Which programs of the object are loaded. */
    var autoload: seq<bool>

    ghost predicate Empty()
      reads this
    {
      object_ == None && link == None
    }

    function Held(): set<nat>
      reads this
    {
      (if link.Some? then {link.value} else {}) + (if object_.Some? then {object_.value} else {})
    }

    ghost predicate Valid()
      reads this, kernel
    {
      kernel.Valid() && Held() <= kernel.live && (object_.Some? ==> object_ != link)
    }

    constructor (kernel: Kernel)
      requires kernel.Valid()
      ensures this.kernel == kernel && Empty() && Valid()
    {
      this.kernel := kernel;
      object_, link, mapId, autoload := None, None, 0, [];
    }

    method DestroyState()
      requires Valid()
      modifies this, kernel
      ensures Valid() && Empty()
      ensures kernel.live == old(kernel.live) - old(Held()) && kernel.next == old(kernel.next)
    {
      if link.Some? {
        kernel.Release(link.value);
      }
      if object_.Some? {
        kernel.Release(object_.value);
      }
      object_, link, mapId := None, None, 0;
    }

    method LoadBackend(b: Backend, a: Attempt) returns (error: int)
      requires Valid() && Empty()
      modifies this, kernel
      ensures Valid() && error == BackendError(b, a)
      ensures error != 0 ==> Empty() && kernel.live == old(kernel.live)
      ensures error == 0 ==> object_.Some? && link.Some? && mapId == a.mapId
      ensures error == 0 ==> kernel.live - Held() == old(kernel.live)
      ensures error == 0 ==>
        (|autoload| == |a.programs| &&
        forall i :: 0 <= i < |a.programs| ==>
          autoload[i] == (a.programs[i] == if b.Kprobe? then "udp_recv_kprobe" else "udp_recv_fentry"))
    {
      if a.openError != 0 {
        object_ := None;
        return a.openError;
      }
      var obj := kernel.Acquire();
      object_ := Some(obj);

      var selected := false;
      autoload := [];
      for i := 0 to |a.programs|
        invariant Valid() && object_ == Some(obj) && link == None && kernel.live == old(kernel.live) + {obj}
        invariant |autoload| == i && selected == (ProgramName(b) in a.programs[..i])
        invariant forall j :: 0 <= j < i ==> autoload[j] == (a.programs[j] == ProgramName(b))
      {
        var enabled := a.programs[i] == ProgramName(b);
        autoload := autoload + [enabled];
        if enabled {
          selected := true;
        }
        assert a.programs[..i + 1] == a.programs[..i] + [a.programs[i]];
      }
      assert a.programs[..|a.programs|] == a.programs;
      if !selected {
        DestroyState();
        return -ENOENT;
      }

      if a.loadError != 0 {
        DestroyState();
        return a.loadError;
      }
      if a.attachError != 0 {
        link := None;
        DestroyState();
        return a.attachError;
      }
      var attached := kernel.Acquire();
      link := Some(attached);

      if a.mapMissing {
        DestroyState();
        return -ENOENT;
      }
      if a.infoErrno != 0 {
        DestroyState();
        return -a.infoErrno;
      }
      mapId := a.mapId;
      return 0;
    }
  }

  /** The backend `main` ends up with: fentry unless the mode excludes it or it fails,
      then kprobe unless the mode excludes it or it fails. */
  function Chosen(mode: Mode, fentry: Attempt, kprobe: Attempt): Option<(Backend, nat)> {
    if mode != OnlyKprobe && BackendError(Fentry, fentry) == 0 then Some((Fentry, fentry.mapId))
    else if mode != OnlyFentry && BackendError(Kprobe, kprobe) == 0 then Some((Kprobe, kprobe.mapId))
    else None
  }

  /** Fentry comes first: kprobe is reported only if it is asked for alone, or if fentry
      fails and was not asked for alone. */
  lemma ChosenIff(mode: Mode, fentry: Attempt, kprobe: Attempt, b: Backend, id: nat)
    ensures Chosen(mode, fentry, kprobe) == Some((b, id)) <==>
            match b
            case Fentry => !mode.OnlyKprobe? && BackendError(Fentry, fentry) == 0 && id == fentry.mapId
            case Kprobe =>
              && BackendError(Kprobe, kprobe) == 0 && id == kprobe.mapId
              && (mode.OnlyKprobe? || (mode.Auto? && BackendError(Fentry, fentry) != 0))
  {
  }

  /** The receive loader's `main`. The second attempt starts from an empty state, as
      `LoadBackend` requires; in the end nothing acquired is still live. */
  method ReceiveLoaderMain(kernel: Kernel, mode: Mode, fentry: Attempt, kprobe: Attempt)
    returns (exitCode: int, reported: Option<(Backend, nat)>)
    requires kernel.Valid()
    modifies kernel
    ensures kernel.Valid() && kernel.live == old(kernel.live)
    ensures forall r :: old(kernel.next) <= r < kernel.next ==> r in kernel.released
    ensures reported == Chosen(mode, fentry, kprobe)
    ensures exitCode == (if reported.Some? then 0 else 1)
  {
    var state := new ReceiveState(kernel);
    var backend: Option<Backend> := None;
    var error := -EINVAL;
    if mode != OnlyKprobe {
      error := state.LoadBackend(Fentry, fentry);
      if error == 0 {
        backend := Some(Fentry);
      }
    }
    if backend.None? && mode != OnlyFentry {
      error := state.LoadBackend(Kprobe, kprobe);
      if error == 0 {
        backend := Some(Kprobe);
      }
    }
    if backend.None? {
      return if error != 0 then 1 else 0, None;
    }
    reported := Some((backend.value, state.mapId));
    state.DestroyState();
    return 0, reported;
  }
}
