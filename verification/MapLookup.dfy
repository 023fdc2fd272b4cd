/** Which of the maps of the loaded programs the ingress collector reads. */
module MapLookup {
  import opened Wrappers

  /** A loaded program as bpftool lists it. */
  datatype Program = Program(id: int, name: string, mapIds: seq<int>)

  /** The kernel keeps 15 characters of a map's name. */
  const NAME_LENGTH := 15

  function Truncated(name: string): string {
    if |name| <= NAME_LENGTH then name else name[..NAME_LENGTH]
  }

  predicate Candidate(p: Program, name: string) {
    p.name == name && p.mapIds != []
  }

  /** The candidate with the highest id, the last one of them. */
  function Newest(programs: seq<Program>, name: string): (newest: Option<Program>)
    ensures newest.None? <==> forall p :: p in programs ==> !Candidate(p, name)
    ensures newest.Some? ==> newest.value in programs && Candidate(newest.value, name)
    ensures newest.Some? ==> forall p :: p in programs && Candidate(p, name) ==> p.id <= newest.value.id
  {
    if programs == [] then None
    else
      var n := |programs| - 1;
      var p := programs[n];
      var before := Newest(programs[..n], name);
      assert programs == programs[..n] + [p];
      if Candidate(p, name) && (before.None? || before.value.id <= p.id) then Some(p) else before
  }

  /** Should two have the highest id, it is the one listed last, as a stable sort leaves it. */
  lemma {:induction false} NewestIsTheLast(programs: seq<Program>, name: string) returns (i: nat)
    requires Newest(programs, name).Some?
    ensures i < |programs| && programs[i] == Newest(programs, name).value
    ensures forall j :: i < j < |programs| && Candidate(programs[j], name) ==> programs[j].id < programs[i].id
  {
    var n := |programs| - 1;
    var before := Newest(programs[..n], name);
    if Candidate(programs[n], name) && (before.None? || before.value.id <= programs[n].id) {
      i := n;
    } else {
      i := NewestIsTheLast(programs[..n], name);
      forall j | i < j < |programs| && Candidate(programs[j], name) ensures programs[j].id < programs[i].id {
        assert j < n ==> programs[..n][j] == programs[j];
      }
    }
  }

  predicate Named(names: map<int, string>, id: int, name: string) {
    (if id in names then names[id] else "") == name
  }

  /** `refresh_map_id`: the first map of the newest program that bears the wanted name. */
  method RefreshMapId(programs: seq<Program>, names: map<int, string>, programName: string, mapName: string)
    returns (mapId: Option<int>)
    ensures mapId.Some? ==>
      (exists i :: FirstNamed(Newest(programs, programName), names, Truncated(mapName), i)
        && mapId.value == Newest(programs, programName).value.mapIds[i])
    ensures mapId.None? ==> NoneNamed(Newest(programs, programName), names, Truncated(mapName))
  {
    var newest := Newest(programs, programName);
    if newest.None? {
      return None;
    }
    var mapIds := newest.value.mapIds;
    var wanted := Truncated(mapName);
    for i := 0 to |mapIds|
      invariant forall j :: 0 <= j < i ==> !Named(names, mapIds[j], wanted)
    {
      if Named(names, mapIds[i], wanted) {
        assert FirstNamed(newest, names, wanted, i);
        return Some(mapIds[i]);
      }
    }
    return None;
  }

  predicate FirstNamed(p: Option<Program>, names: map<int, string>, name: string, i: int) {
    && p.Some? && 0 <= i < |p.value.mapIds|
    && Named(names, p.value.mapIds[i], name)
    && forall j :: 0 <= j < i ==> !Named(names, p.value.mapIds[j], name)
  }

  predicate NoneNamed(p: Option<Program>, names: map<int, string>, name: string) {
    p.Some? ==> forall i :: 0 <= i < |p.value.mapIds| ==> !Named(names, p.value.mapIds[i], name)
  }

  /** The kernel's own name of a map: at most 15 characters (BPF_OBJ_NAME_LEN - 1). */
  function KernelName(full: string): string {
    if |full| > 15 then full[..15] else full
  }

  /** The kernel lists every map of `p` under its own name of it. */
  predicate Listing(p: Program, fullNames: seq<string>, names: map<int, string>) {
    && |fullNames| == |p.mapIds|
    && forall i :: 0 <= i < |p.mapIds| ==> Named(names, p.mapIds[i], KernelName(fullNames[i]))
  }

  /** The collector cuts a name exactly as the kernel does. */
  lemma CutsLikeTheKernel(full: string)
    ensures Truncated(full) == KernelName(full)
  {
  }

  /** The collector reads the map declared as `fullNames[m]` exactly when no map before
      it in the program's list has the same name in the kernel. */
  lemma ReadsTheMapDeclaredIff(p: Program, fullNames: seq<string>, names: map<int, string>, m: nat)
    requires m < |p.mapIds| && Listing(p, fullNames, names)
    ensures FirstNamed(Some(p), names, Truncated(fullNames[m]), m) <==>
            forall j :: 0 <= j < m ==> KernelName(fullNames[j]) != KernelName(fullNames[m])
  {
    var wanted := Truncated(fullNames[m]);
    CutsLikeTheKernel(fullNames[m]);
    assert forall j :: 0 <= j < |p.mapIds| ==>
      (Named(names, p.mapIds[j], wanted) <==> KernelName(fullNames[j]) == wanted);
  }

  /** The counters map and the drop-reason map of the ingress program are told apart,
      in whichever order the kernel lists them. */
  lemma CountersAreNotDrops(p: Program, names: map<int, string>, first: string, second: string)
    requires |p.mapIds| == 2 && Listing(p, [first, second], names)
    requires {first, second} == {"udp_ingress_counters", "udp_ingress_drops"}
    ensures var m := if first == "udp_ingress_counters" then 0 else 1;
            FirstNamed(Some(p), names, Truncated("udp_ingress_counters"), m)
  {
    var m := if first == "udp_ingress_counters" then 0 else 1;
    assert first in {first, second} && second in {first, second};
    assert "udp_ingress_counters" in {first, second};
    assert KernelName("udp_ingress_counters")[12] != KernelName("udp_ingress_drops")[12];
    ReadsTheMapDeclaredIff(p, [first, second], names, m);
  }

  const UDP_INGRESS_PROGRAM_NAME := "udp_ingress"
  const UDP_INGRESS_MAP_NAME := "udp_ingress_counters"

  /** The map that the collector of a host reads. */
  method RefreshIngressMapId(programs: seq<Program>, names: map<int, string>) returns (mapId: Option<int>)
    ensures forall p, counters, drops :: IngressMaps(programs, names, p, counters, drops) ==> mapId == Some(counters)
  {
    mapId := RefreshMapId(programs, names, UDP_INGRESS_PROGRAM_NAME, UDP_INGRESS_MAP_NAME);
    forall p, counters, drops | IngressMaps(programs, names, p, counters, drops) ensures mapId == Some(counters) {
      IngressMapNames();
      assert Newest(programs, UDP_INGRESS_PROGRAM_NAME) == Some(p);
      var m := if p.mapIds[0] == counters then 0 else 1;
      assert p.mapIds[m] == counters && Named(names, p.mapIds[m], "udp_ingress_cou");
      assert Named(names, drops, "udp_ingress_dro");
      assert mapId.Some? && mapId.value in p.mapIds;
    }
  }

  /** The newest `udp_ingress` program owns two maps, in either order, which the kernel lists
      as `udp_ingress_cou` and `udp_ingress_dro`. */
  predicate IngressMaps(programs: seq<Program>, names: map<int, string>, p: Program, counters: int, drops: int) {
    && p in programs && p.name == "udp_ingress" && (p.mapIds == [counters, drops] || p.mapIds == [drops, counters])
    && (forall q :: q in programs && q != p && q.name == "udp_ingress" ==> q.mapIds == [] || q.id < p.id)
    && counters in names && names[counters] == "udp_ingress_cou"
    && drops in names && names[drops] == "udp_ingress_dro"
  }

  /** They are the names of the two maps that the program declares. */
  lemma IngressMapNames()
    ensures KernelName("udp_ingress_counters") == "udp_ingress_cou"
    ensures KernelName("udp_ingress_drops") == "udp_ingress_dro"
    ensures Truncated(UDP_INGRESS_MAP_NAME) == "udp_ingress_cou" && "udp_ingress_cou" != "udp_ingress_dro"
    ensures UDP_INGRESS_PROGRAM_NAME == "udp_ingress"
  {
    assert "udp_ingress_cou"[12] != "udp_ingress_dro"[12];
  }
}
