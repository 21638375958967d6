/**
 The state files of the ADB proxy (worker_agent/adb_proxy.py): source.json,
 target.json and hub.toml on one host. Processes, devices and the network are
 outcomes that the environment chooses.
 */
module AdbProxyState {
  import opened Wrappers
  import opened Strings
  import opened HubConfig

  datatype Import = Import(source: string, address: string, backendName: string, generation: int)

  datatype Source = Source(running: bool, generation: int)

  /** The three files; None where a file does not exist. */
  datatype Files = Files(source: Option<Source>, target: Option<seq<Import>>, hub: Option<string>)

  const NO_FILES := Files(None, None, None)

  datatype Reason = BadPairCode | BadName | BadRequest | HostIsSource | HostIsTarget | Stale

  /** `Raised`: something outside failed after the request was accepted. */
  datatype Outcome = Done | Refused(reason: Reason) | Raised

  // ---- Names ----

  predicate IsSafe(c: char) {
    'A' <= c <= 'Z' || 'a' <= c <= 'z' || '0' <= c <= '9' || c == '.' || c == '_' || c == '-'
  }

  predicate IsSafeName(s: string) {
    1 <= |s| <= 128 && forall c :: c in s ==> IsSafe(c)
  }

  predicate IsPairCode(s: string) {
    |s| == 8 && forall c :: c in s ==> 'A' <= c <= 'Z' || '0' <= c <= '9'
  }

  function Sanitised(s: string): string {
    seq(|s|, i requires 0 <= i < |s| => if IsSafe(s[i]) then s[i] else '-')
  }

  function First(s: string, n: nat): string {
    if |s| <= n then s else s[..n]
  }

  /** `_backend_name`. */
  function BackendName(worker: string): string {
    "gms-" + First(Sanitised(worker), 100)
  }

  /** Two workers share a backend name exactly if their ids agree in the first 100 characters. */
  lemma SharedName(a: string, b: string)
    requires IsSafeName(a) && IsSafeName(b)
    ensures BackendName(a) == BackendName(b) <==> First(a, 100) == First(b, 100)
  {
    assert Sanitised(a) == a && Sanitised(b) == b;
    assert BackendName(a)[4..] == First(a, 100) && BackendName(b)[4..] == First(b, 100);
  }

  lemma ShortNamesDiffer(a: string, b: string)
    requires IsSafeName(a) && IsSafeName(b) && |a| <= 100 && |b| <= 100 && a != b
    ensures BackendName(a) != BackendName(b)
  {
    SharedName(a, b);
  }

  /** Longer ids can collide. */
  lemma LongNamesCollide() returns (a: string, b: string)
    ensures IsSafeName(a) && IsSafeName(b) && a != b && BackendName(a) == BackendName(b)
  {
    var stem: string := seq(100, _ => 'a');
    a, b := stem + "a", stem + "b";
    assert First(a, 100) == stem == First(b, 100);
    assert a[100] != b[100];
    SharedName(a, b);
  }

  // ---- Agreement ----

  function Imports(f: Files): seq<Import> {
    if f.target.Some? then f.target.value else []
  }

  function Names(backends: seq<Backend>): set<string> {
    set b | b in backends :: b.name
  }

  function Wanted(imports: seq<Import>): set<string> {
    set i | i in imports :: BackendName(i.source)
  }

  /** target.json and hub.toml name the same sources. */
  predicate Agree(f: Files) {
    Names(HubOf(f.hub)) == Wanted(Imports(f))
  }

  /** No other imported worker has the backend name of `worker`. */
  predicate Unshared(imports: seq<Import>, worker: string) {
    forall i :: i in imports && i.source != worker ==> BackendName(i.source) != BackendName(worker)
  }

  predicate HubWritable(hub: Option<string>) {
    forall b :: b in HubOf(hub) ==> Writable(b)
  }

  ghost predicate ImportsFit(imports: seq<Import>) {
    && (forall i :: i in imports ==> IsSafeName(i.source) && i.backendName == BackendName(i.source))
    && (forall i, j :: 0 <= i < j < |imports| ==> imports[i].source != imports[j].source)
  }

  /** What every operation keeps; the host is never a running source and an importer at once. */
  ghost predicate Fit(f: Files) {
    && ImportsFit(Imports(f)) && HubWritable(f.hub)
    && !(f.source.Some? && f.source.value.running && Imports(f) != [])
  }

  function Without(imports: seq<Import>, worker: string): seq<Import> {
    if imports == [] then []
    else (if imports[0].source == worker then [] else [imports[0]]) + Without(imports[1..], worker)
  }

  function WithoutName(backends: seq<Backend>, name: string): seq<Backend> {
    if backends == [] then []
    else (if backends[0].name == name then [] else [backends[0]]) + WithoutName(backends[1..], name)
  }

  lemma {:induction false} WithoutKeepsRest(imports: seq<Import>, worker: string)
    ensures forall i :: i in Without(imports, worker) <==> i in imports && i.source != worker
    decreases |imports|
  {
    if imports != [] {
      WithoutKeepsRest(imports[1..], worker);
      assert imports == [imports[0]] + imports[1..];
    }
  }

  lemma {:induction false} WithoutFits(imports: seq<Import>, worker: string)
    requires ImportsFit(imports)
    ensures ImportsFit(Without(imports, worker))
    decreases |imports|
  {
    if imports != [] {
      var rest := Without(imports[1..], worker);
      WithoutFits(imports[1..], worker);
      WithoutKeepsRest(imports[1..], worker);
      forall k | 0 <= k < |rest|
        ensures rest[k].source != imports[0].source
      {
        assert rest[k] in imports[1..];
      }
      assert imports[0] in imports;
    }
  }

  lemma {:induction false} WithoutNameKeepsRest(backends: seq<Backend>, name: string)
    ensures forall b :: b in WithoutName(backends, name) <==> b in backends && b.name != name
    decreases |backends|
  {
    if backends != [] {
      WithoutNameKeepsRest(backends[1..], name);
      assert backends == [backends[0]] + backends[1..];
    }
  }

  /** The backends that are read back from a written file have the names that were written. */
  lemma WrittenNames(backends: seq<Backend>)
    requires forall b :: b in backends ==> Writable(b)
    ensures Names(HubOf(Some(HubText(backends)))) == Names(backends)
    ensures HubWritable(Some(HubText(backends)))
  {
    var ordered := SortByName(backends);
    HubRoundTrip(backends);
    SortKeepsElements(backends);
    hide HubOf, HubText, SortByName, Writable;
    forall b
      ensures b in ordered <==> b in backends
    {
      assert b in ordered <==> b in multiset(ordered);
      assert b in backends <==> b in multiset(backends);
    }
    SwitchedNames(ordered);
  }

  /** They are the backends that were written, each enabled. */
  lemma WrittenBackends(backends: seq<Backend>)
    requires forall b :: b in backends ==> Writable(b)
    ensures forall b :: b in backends ==> Switched(b) in HubOf(Some(HubText(backends)))
    ensures forall b :: b in HubOf(Some(HubText(backends))) ==> exists o :: o in backends && b == Switched(o)
  {
    var ordered := SortByName(backends);
    HubRoundTrip(backends);
    SortKeepsElements(backends);
    hide HubOf, HubText, SortByName, Writable, Switched;
    forall b
      ensures b in ordered <==> b in backends
    {
      assert b in ordered <==> b in multiset(ordered);
      assert b in backends <==> b in multiset(backends);
    }
    forall b | b in backends
      ensures Switched(b) in AllSwitched(ordered)
    {
      var i :| 0 <= i < |ordered| && ordered[i] == b;
      assert AllSwitched(ordered)[i] == Switched(b);
    }
    forall b | b in AllSwitched(ordered)
      ensures exists o :: o in backends && b == Switched(o)
    {
      var i :| 0 <= i < |ordered| && AllSwitched(ordered)[i] == b;
      assert ordered[i] in ordered;
    }
  }

  /** Every backend of another name is in `after` with its address and pair code if and only if it is in `before`. */
  ghost predicate SparesOthers(before: seq<Backend>, after: seq<Backend>, name: string) {
    && (forall b :: b in before && b.name != name ==> Backend(b.name, b.addr, b.pairCode, Some(true)) in after)
    && (forall b :: b in after && b.name != name ==>
          b.enabled == Some(true) && exists e :: Backend(b.name, b.addr, b.pairCode, e) in before)
  }

  /** A disconnect removes the backends of its name from the file and spares all others. */
  lemma TakenOutSparesOthers(before: Files, after: Files, worker: string)
    requires HubWritable(before.hub) && TakenOut(before, after, worker) && Imports(after) != []
    ensures SparesOthers(HubOf(before.hub), HubOf(after.hub), BackendName(worker))
    ensures forall b :: b in HubOf(after.hub) ==> b.name != BackendName(worker)
  {
    hide HubOf, HubText, Writable, BackendName;
    WithoutNameKeepsRest(HubOf(before.hub), BackendName(worker));
    WrittenBackends(WithoutName(HubOf(before.hub), BackendName(worker)));
    forall b | b in HubOf(after.hub)
      ensures b.name != BackendName(worker) && b.enabled == Some(true)
      ensures exists e :: Backend(b.name, b.addr, b.pairCode, e) in HubOf(before.hub)
    {
      var o :| o in WithoutName(HubOf(before.hub), BackendName(worker)) && b == Switched(o);
      assert o == Backend(b.name, b.addr, b.pairCode, o.enabled);
    }
  }

  /** What a connect writes: the backend of the worker with its address and pair code, and all others as they were. */
  lemma ConnectSparesOthers(hub: Option<string>, worker: string, addr: string, pairCode: string)
    requires HubWritable(hub) && IsSafeName(worker) && addr != "" && Plain(addr) && IsPairCode(pairCode)
    ensures var after := HubOf(Some(HubText(WithBackend(hub, worker, addr, pairCode))));
      && SparesOthers(HubOf(hub), after, BackendName(worker))
      && (forall b :: b in after && b.name == BackendName(worker) ==> b.addr == addr && b.pairCode == pairCode)
      && Backend(BackendName(worker), addr, pairCode, Some(true)) in after
  {
    var new' := Backend(BackendName(worker), addr, pairCode, Some(true));
    NameIsPlain(worker);
    assert Writable(new') && Switched(new') == new';
    hide HubOf, HubText, Writable, BackendName, Plain, IsPairCode, IsSafeName, WithoutName, SparesOthers;
    var rest := WithoutName(HubOf(hub), BackendName(worker));
    WithoutNameKeepsRest(HubOf(hub), BackendName(worker));
    assert forall b :: b in rest + [new'] ==> Writable(b);
    WrittenBackends(rest + [new']);
    ReplacedSparesOthers(HubOf(hub), rest, new', HubOf(Some(HubText(rest + [new']))));
  }

  lemma ReplacedSparesOthers(before: seq<Backend>, rest: seq<Backend>, new': Backend, after: seq<Backend>)
    requires forall b :: b in rest <==> b in before && b.name != new'.name
    requires forall b :: b in rest + [new'] ==> Switched(b) in after
    requires forall b :: b in after ==> exists o :: o in rest + [new'] && b == Switched(o)
    requires Switched(new') == new'
    ensures SparesOthers(before, after, new'.name) && new' in after
    ensures forall b :: b in after && b.name == new'.name ==> b == new'
  {
    assert forall b :: b in rest + [new'] <==> b in rest || b == new';
    forall b | b in after
      ensures b == new' || (b.name != new'.name && b.enabled == Some(true))
      ensures b == new' || exists e :: Backend(b.name, b.addr, b.pairCode, e) in before
    {
      var o :| o in rest + [new'] && b == Switched(o);
      assert o == Backend(b.name, b.addr, b.pairCode, o.enabled);
    }
    forall b | b in before && b.name != new'.name
      ensures Backend(b.name, b.addr, b.pairCode, Some(true)) in after
    {
      assert b in rest + [new'] && Switched(b) == Backend(b.name, b.addr, b.pairCode, Some(true));
    }
  }

  lemma SwitchedNames(backends: seq<Backend>)
    requires forall b :: b in backends ==> Writable(b)
    ensures Names(AllSwitched(backends)) == Names(backends)
    ensures forall b :: b in AllSwitched(backends) ==> Writable(b)
  {
    hide Writable;
    var all := AllSwitched(backends);
    forall i | 0 <= i < |backends|
      ensures all[i].name == backends[i].name && Writable(all[i])
      ensures backends[i].name in Names(all) && all[i].name in Names(backends)
    {
      assert backends[i] in backends && all[i] in all;
      SwitchedWritable(backends[i]);
    }
  }

  lemma SwitchedWritable(b: Backend)
    requires Writable(b)
    ensures Writable(Switched(b))
  {}

  // ---- What the operations do to agreement ----

  /** The files after the import and the backend of `worker` were taken out. */
  ghost predicate TakenOut(before: Files, after: Files, worker: string) {
    && after.source == before.source
    && Imports(after) == Without(Imports(before), worker)
    && HubWritable(after.hub)
    && (if Imports(after) == [] then after.hub == None
        else
          && after.hub == Some(HubText(WithoutName(HubOf(before.hub), BackendName(worker))))
          && Names(HubOf(after.hub)) == Names(HubOf(before.hub)) - {BackendName(worker)})
  }

  /** Taking a worker out keeps the files in agreement exactly if its backend name is its own. */
  lemma TakenOutAgrees(before: Files, after: Files, worker: string)
    requires Agree(before) && TakenOut(before, after, worker)
    ensures Agree(after) <==> Unshared(Imports(before), worker)
  {
    var imports, rest := Imports(before), Imports(after);
    WithoutKeepsRest(imports, worker);
    if Unshared(imports, worker) {
      if rest != [] {
        assert Wanted(rest) == Wanted(imports) - {BackendName(worker)} by {
          forall name | name in Wanted(imports) - {BackendName(worker)}
            ensures name in Wanted(rest)
          {
            var i :| i in imports && BackendName(i.source) == name;
            assert i in rest;
          }
        }
      }
    } else {
      var i :| i in imports && i.source != worker && BackendName(i.source) == BackendName(worker);
      assert i in rest;
      assert BackendName(worker) in Wanted(rest);
    }
  }

  function Last(imports: seq<Import>): Import
    requires imports != []
  {
    imports[|imports| - 1]
  }

  /** The files after the import and the backend of `worker` were replaced. */
  ghost predicate PutIn(before: Files, after: Files, worker: string, generation: int) {
    && after.source == before.source
    && Imports(after) != [] && Imports(after) == Without(Imports(before), worker) + [Last(Imports(after))]
    && Last(Imports(after)).source == worker && Last(Imports(after)).generation == generation
    && Last(Imports(after)).backendName == BackendName(worker)
    && HubWritable(after.hub)
    && Names(HubOf(after.hub)) == Names(HubOf(before.hub)) + {BackendName(worker)}
  }

  lemma PutInAgrees(before: Files, after: Files, worker: string, generation: int)
    requires Agree(before) && PutIn(before, after, worker, generation)
    ensures Agree(after)
  {
    hide HubWritable, Names, HubOf, BackendName, Without;
    var imports, rest, last := Imports(before), Without(Imports(before), worker), Last(Imports(after));
    WithoutKeepsRest(imports, worker);
    WantedOfAppend(rest, last);
    forall i | i in imports
      ensures BackendName(i.source) in Wanted(rest) + {BackendName(worker)}
    {
      if i.source != worker {
        assert i in rest;
      }
    }
    forall i | i in rest
      ensures BackendName(i.source) in Wanted(imports)
    {
      assert i in imports;
    }
  }

  lemma WantedOfAppend(rest: seq<Import>, last: Import)
    ensures Wanted(rest + [last]) == Wanted(rest) + {BackendName(last.source)}
  {
    hide BackendName;
    assert last in rest + [last];
    forall i | i in rest
      ensures i in rest + [last]
    {}
  }

  lemma AppendFits(rest: seq<Import>, last: Import)
    requires ImportsFit(rest) && IsSafeName(last.source) && last.backendName == BackendName(last.source)
    requires forall i :: i in rest ==> i.source != last.source
    ensures ImportsFit(rest + [last])
  {
    hide BackendName, IsSafeName;
    assert forall k :: 0 <= k < |rest| ==> rest[k] in rest;
  }

  lemma PutInFits(before: Files, after: Files, worker: string, generation: int)
    requires ImportsFit(Imports(before)) && PutIn(before, after, worker, generation) && IsSafeName(worker)
    ensures ImportsFit(Imports(after))
  {
    hide ImportsFit, BackendName, IsSafeName, Without, HubWritable, Names, HubOf;
    WithoutFits(Imports(before), worker);
    WithoutKeepsRest(Imports(before), worker);
    AppendFits(Without(Imports(before), worker), Last(Imports(after)));
  }

  // ---- Generations ----

  /** Every worker that is imported before and after has no smaller generation after. */
  ghost predicate NeverBack(before: seq<Import>, after: seq<Import>) {
    forall i, j :: i in before && j in after && i.source == j.source ==> i.generation <= j.generation
  }

  predicate IsStale(imports: seq<Import>, worker: string, generation: int) {
    exists i :: i in imports && i.source == worker && i.generation > generation
  }

  lemma {:induction false} SameGeneration(imports: seq<Import>, i: Import, j: Import)
    requires ImportsFit(imports) && i in imports && j in imports && i.source == j.source
    ensures i == j
  {
    var a :| 0 <= a < |imports| && imports[a] == i;
    var b :| 0 <= b < |imports| && imports[b] == j;
    assert a == b;
  }

  lemma TakenOutNeverBack(before: Files, after: Files, worker: string)
    requires ImportsFit(Imports(before)) && TakenOut(before, after, worker)
    ensures NeverBack(Imports(before), Imports(after))
  {
    WithoutKeepsRest(Imports(before), worker);
    forall i, j | i in Imports(before) && j in Imports(after) && i.source == j.source
      ensures i.generation <= j.generation
    {
      SameGeneration(Imports(before), i, j);
    }
  }

  lemma PutInNeverBack(before: Files, after: Files, worker: string, generation: int)
    requires ImportsFit(Imports(before)) && PutIn(before, after, worker, generation)
    requires !IsStale(Imports(before), worker, generation)
    ensures NeverBack(Imports(before), Imports(after))
  {
    hide ImportsFit, BackendName, HubWritable, Names, HubOf, Without;
    var rest, last := Without(Imports(before), worker), Last(Imports(after));
    WithoutKeepsRest(Imports(before), worker);
    forall i, j | i in Imports(before) && j in rest + [last] && i.source == j.source
      ensures i.generation <= j.generation
    {
      if j in rest {
        SameGeneration(Imports(before), i, j);
      }
    }
  }

  // ---- Runs ----

  /** One operation, or a part of one, on behalf of `worker`. */
  datatype Move = SourceOnly | Put(worker: string, generation: int) | Take(worker: string)

  ghost predicate Moved(a: Files, b: Files, m: Move) {
    match m
    case SourceOnly => b.target == a.target && b.hub == a.hub
    case Put(worker, generation) => PutIn(a, b, worker, generation) && !IsStale(Imports(a), worker, generation)
    case Take(worker) => TakenOut(a, b, worker)
  }

  /** A worker id that the controller may use: valid, and not longer than what a backend name keeps. */
  predicate IsShortName(s: string) {
    IsSafeName(s) && |s| <= 100
  }

  predicate ShortMove(m: Move) {
    !m.SourceOnly? ==> IsShortName(m.worker)
  }

  ghost predicate InStep(f: Files) {
    Agree(f) && ImportsFit(Imports(f)) && forall i :: i in Imports(f) ==> IsShortName(i.source)
  }

  lemma MoveKeepsStep(a: Files, b: Files, m: Move)
    requires InStep(a) && Moved(a, b, m) && ShortMove(m)
    ensures InStep(b) && NeverBack(Imports(a), Imports(b))
  {
    hide Agree, PutIn, TakenOut, ImportsFit, IsSafeName, BackendName, IsStale;
    match m
    case SourceOnly => SourceOnlyKeeps(a, b);
    case Put(worker, generation) =>
      PutInAgrees(a, b, worker, generation);
      PutInFits(a, b, worker, generation);
      PutInNeverBack(a, b, worker, generation);
      PutInSources(a, b, worker, generation);
    case Take(worker) =>
      ShortIsUnshared(Imports(a), worker);
      TakenOutAgrees(a, b, worker);
      TakenOutNeverBack(a, b, worker);
      TakenOutSources(a, b, worker);
  }

  lemma SourceOnlyKeeps(a: Files, b: Files)
    requires Agree(a) && ImportsFit(Imports(a)) && b.target == a.target && b.hub == a.hub
    ensures Agree(b) && ImportsFit(Imports(b)) && NeverBack(Imports(a), Imports(b))
  {
    hide BackendName, IsSafeName, HubOf, Names, Wanted;
    forall i, j | i in Imports(a) && j in Imports(a) && i.source == j.source
      ensures i.generation <= j.generation
    {
      SameGeneration(Imports(a), i, j);
    }
  }

  lemma ShortIsUnshared(imports: seq<Import>, worker: string)
    requires IsShortName(worker) && forall i :: i in imports ==> IsShortName(i.source)
    ensures Unshared(imports, worker)
  {
    forall i | i in imports && i.source != worker
      ensures BackendName(i.source) != BackendName(worker)
    {
      ShortNamesDiffer(i.source, worker);
    }
  }

  lemma PutInSources(a: Files, b: Files, worker: string, generation: int)
    requires PutIn(a, b, worker, generation)
    ensures forall i :: i in Imports(b) ==> i in Imports(a) || i.source == worker
  {
    hide HubWritable, Names, HubOf, BackendName, Without;
    WithoutKeepsRest(Imports(a), worker);
  }

  lemma TakenOutSources(a: Files, b: Files, worker: string)
    requires TakenOut(a, b, worker) && ImportsFit(Imports(a))
    ensures forall i :: i in Imports(b) ==> i in Imports(a)
    ensures ImportsFit(Imports(b))
  {
    WithoutKeepsRest(Imports(a), worker);
    WithoutFits(Imports(a), worker);
  }

  /**
   From a host without state files, whatever connects, disconnects and
   rollbacks happen for worker ids of at most 100 characters, both files
   always name the same sources.
   */
  lemma {:induction false} RunAgrees(states: seq<Files>, moves: seq<Move>)
    requires |states| == |moves| + 1 && states[0] == NO_FILES
    requires forall k :: 0 <= k < |moves| ==> Moved(states[k], states[k + 1], moves[k]) && ShortMove(moves[k])
    ensures InStep(states[|moves|])
    decreases |moves|
  {
    hide Moved, ShortMove;
    if moves != [] {
      hide InStep;
      var n := |moves| - 1;
      RunAgrees(states[..n + 1], moves[..n]);
      MoveKeepsStep(states[n], states[n + 1], moves[n]);
    }
  }

  // ---- The operations ----

  /** The backends of the file with the one of `worker` replaced; every other one stays. */
  function WithBackend(hub: Option<string>, worker: string, addr: string, pairCode: string): seq<Backend> {
    WithoutName(HubOf(hub), BackendName(worker)) + [Backend(BackendName(worker), addr, pairCode, Some(true))]
  }

  /** Everything about a request but its generation. */
  predicate Acceptable(f: Files, workerId: string, resolved: Option<string>, devicesOk: bool, pairCode: string) {
    && IsPairCode(pairCode) && !(f.source.Some? && f.source.value.running)
    && IsSafeName(Strip(workerId)) && resolved.Some? && devicesOk
  }

  class ProxyHost {
    var source: Option<Source>
    var target: Option<seq<Import>>
    var hub: Option<string>

    function View(): Files
      reads this
    {
      Files(source, target, hub)
    }

    ghost predicate Valid()
      reads this
    {
      Fit(View())
    }

    constructor ()
      ensures Valid() && View() == NO_FILES && Agree(View())
    {
      source, target, hub := None, None, None;
    }

    /** The first import of a worker. */
    method FindImport(imports: seq<Import>, worker: string) returns (found: Option<Import>)
      ensures found.Some? ==> found.value in imports && found.value.source == worker
      ensures found.None? ==> forall i :: i in imports ==> i.source != worker
    {
      for k := 0 to |imports|
        invariant forall j :: 0 <= j < k ==> imports[j].source != worker
      {
        if imports[k].source == worker {
          return Some(imports[k]);
        }
      }
      found := None;
    }

    /** `_source_start`, up to the proxy being ready. */
    method SourceStart(pairCode: string, generation: int) returns (outcome: Outcome)
      requires Valid()
      modifies this`source
      ensures Valid()
      ensures Moved(old(View()), View(), SourceOnly)
      ensures outcome != Done ==> source == old(source)
      ensures outcome.Done? ==> source == Some(Source(true, generation)) && Imports(View()) == []
      ensures outcome.Done? && old(source).Some? ==> old(source).value.generation <= generation
      ensures IsPairCode(pairCode) && old(source).Some? && old(source).value.generation > generation ==>
        outcome == Refused(Stale)
    {
      if !IsPairCode(pairCode) {
        return Refused(BadPairCode);
      }
      var current := if source.Some? then source.value.generation else 0;
      if current > generation {
        return Refused(Stale);
      }
      if target.Some? && target.value != [] {
        return Refused(HostIsTarget);
      }
      var accepted, ready := *, *;
      if !accepted {
        return Refused(BadRequest);
      }
      if !ready {
        return Raised;
      }
      source := Some(Source(true, generation));
      outcome := Done;
    }

    /** `_source_stop`; generation 0 stops any source. */
    method SourceStop(generation: int) returns (outcome: Outcome)
      requires Valid()
      modifies this`source
      ensures Valid() && Moved(old(View()), View(), SourceOnly)
      ensures outcome.Done? ==> source == None
      ensures !outcome.Done? ==> source == old(source)
      ensures outcome == Refused(Stale) <==>
        generation != 0 && old(source).Some? && old(source).value.generation > generation
    {
      if generation != 0 && source.Some? && source.value.generation > generation {
        return Refused(Stale);
      }
      var stopped := *;
      if !stopped {
        return Raised;
      }
      source := None;
      outcome := Done;
    }

    /** `_target_disconnect`. If stopping the hub fails, nothing was changed yet. */
    method TargetDisconnect(workerId: string, generation: int) returns (outcome: Outcome)
      requires Valid()
      modifies this`target, this`hub
      ensures Valid()
      ensures outcome.Refused? ==> View() == old(View())
      ensures !outcome.Refused? ==> IsSafeName(Strip(workerId))
      ensures outcome.Done? ==> Moved(old(View()), View(), Take(Strip(workerId)))
      ensures outcome.Raised? ==> View() == old(View()) || Moved(old(View()), View(), Take(Strip(workerId)))
      ensures IsSafeName(Strip(workerId)) ==>
                (outcome == Refused(Stale) <==>
                   generation != 0 && IsStale(Imports(old(View())), Strip(workerId), generation))
    {
      var worker := Strip(workerId);
      if !IsSafeName(worker) {
        return Refused(BadName);
      }
      var imports := Imports(View());
      var current := FindImport(imports, worker);
      StaleIsCurrent(imports, worker, current, generation);
      if generation != 0 && current.Some? && current.value.generation > generation {
        return Refused(Stale);
      }
      outcome := TakeOut(worker);
    }

    /** The part of `_target_disconnect` after the checks. */
    method TakeOut(worker: string) returns (outcome: Outcome)
      requires Valid() && IsSafeName(worker)
      modifies this`target, this`hub
      ensures Valid() && !outcome.Refused?
      ensures outcome.Done? ==> TakenOut(old(View()), View(), worker)
      ensures outcome.Raised? ==> View() == old(View()) || TakenOut(old(View()), View(), worker)
    {
      hide HubWritable, Names, HubOf, ImportsFit, BackendName, IsSafeName, Without, WithoutName;
      var imports := Without(Imports(View()), worker);
      var config := ReadHubConfig(hub);
      var backends := WithoutName(config, BackendName(worker));
      WithoutFits(Imports(View()), worker);
      WithoutEmpty(Imports(View()), worker);
      var works := *;
      if imports != [] {
        KeptNames(hub, BackendName(worker));
        target := Some(imports);
        var text := WriteHubConfig(backends);
        hub := Some(text);
      } else {
        if !works {
          return Raised;
        }
        NoHubWritable();
        target, hub := None, None;
        works := *;
      }
      outcome := if works then Done else Raised;
    }

    /**
     `_target_connect`. Every refusal comes before the first write. If the hub
     does not come up the import is taken out again, as far as that works.
     */
    method TargetConnect(workerId: string, address: string, resolved: Option<string>, devicesOk: bool,
                         pairCode: string, generation: int)
        returns (outcome: Outcome, ghost between: Files)
      requires Valid()
      requires resolved.Some? ==> resolved.value != "" && Plain(resolved.value)
      modifies this`target, this`hub
      ensures Valid()
      ensures outcome.Refused? ==> View() == old(View())
      ensures outcome.Done? ==> View() == between
      ensures !outcome.Refused? ==> Moved(old(View()), between, Put(Strip(workerId), generation))
      ensures outcome.Raised? ==> View() == between || Moved(between, View(), Take(Strip(workerId)))
      ensures !outcome.Refused? ==>
        resolved.Some?
        && between.hub == Some(HubText(WithBackend(old(hub), Strip(workerId), resolved.value, pairCode)))
      ensures !outcome.Refused? ==> Last(Imports(between)).address == address
      ensures Acceptable(old(View()), workerId, resolved, devicesOk, pairCode) ==>
                (outcome.Refused? <==> IsStale(Imports(old(View())), Strip(workerId), generation))
      ensures old(source).Some? && old(source).value.running ==> outcome.Refused?
    {
      between := View();
      if !IsPairCode(pairCode) {
        return Refused(BadPairCode), between;
      }
      if source.Some? && source.value.running {
        return Refused(HostIsSource), between;
      }
      var worker := Strip(workerId);
      if !IsSafeName(worker) {
        return Refused(BadName), between;
      }
      if resolved.None? || !devicesOk {
        return Refused(BadRequest), between;
      }
      var current := FindImport(Imports(View()), worker);
      StaleIsCurrent(Imports(View()), worker, current, generation);
      if current.Some? && current.value.generation > generation {
        return Refused(Stale), between;
      }
      PutInto(worker, address, resolved.value, pairCode, generation);
      between := View();
      var up := *;
      if up {
        outcome := Done;
      } else {
        SafeIsStripped(worker);
        var _ := TargetDisconnect(worker, 0);
        outcome := Raised;
      }
    }

    /** The two writes of `_target_connect`. */
    method PutInto(worker: string, address: string, addr: string, pairCode: string, generation: int)
      requires Valid() && IsSafeName(worker) && IsPairCode(pairCode) && addr != "" && Plain(addr)
      requires source.Some? ==> !source.value.running
      modifies this`target, this`hub
      ensures Valid() && PutIn(old(View()), View(), worker, generation)
      ensures hub == Some(HubText(WithBackend(old(hub), worker, addr, pairCode)))
      ensures Last(Imports(View())).address == address
    {
      hide HubWritable, Names, HubOf, ImportsFit, BackendName, IsSafeName, IsPairCode, Without, WithoutName;
      ghost var before := View();
      var name := BackendName(worker);
      var config := ReadHubConfig(hub);
      var backends := WithoutName(config, name) + [Backend(name, addr, pairCode, Some(true))];
      assert backends == WithBackend(hub, worker, addr, pairCode);
      AddedNames(hub, worker, addr, pairCode);
      var text := WriteHubConfig(backends);
      hub := Some(text);
      var imports := Without(Imports(View()), worker) + [Import(worker, address, name, generation)];
      target := Some(imports);
      assert Last(imports) == Import(worker, address, name, generation);
      PutInFits(before, View(), worker, generation);
    }
  }

  lemma StaleIsCurrent(imports: seq<Import>, worker: string, current: Option<Import>, generation: int)
    requires ImportsFit(imports)
    requires current.Some? ==> current.value in imports && current.value.source == worker
    requires current.None? ==> forall i :: i in imports ==> i.source != worker
    ensures IsStale(imports, worker, generation) <==> current.Some? && current.value.generation > generation
  {
    if IsStale(imports, worker, generation) {
      var i :| i in imports && i.source == worker && i.generation > generation;
      SameGeneration(imports, i, current.value);
    }
  }

  lemma WithoutEmpty(imports: seq<Import>, worker: string)
    ensures imports == [] ==> Without(imports, worker) == []
  {}

  lemma NoHubWritable()
    ensures HubWritable(None)
  {}

  /** The backends that stay are written back with their names. */
  lemma KeptNames(hub: Option<string>, name: string)
    requires HubWritable(hub)
    ensures var text := Some(HubText(WithoutName(HubOf(hub), name)));
            HubWritable(text) && Names(HubOf(text)) == Names(HubOf(hub)) - {name}
  {
    hide HubOf, HubText, Writable;
    WithoutNameKeepsRest(HubOf(hub), name);
    WrittenNames(WithoutName(HubOf(hub), name));
  }

  lemma AddedNames(hub: Option<string>, worker: string, addr: string, pairCode: string)
    requires HubWritable(hub) && IsSafeName(worker) && addr != "" && Plain(addr) && IsPairCode(pairCode)
    ensures var text := Some(HubText(WithBackend(hub, worker, addr, pairCode)));
            HubWritable(text) && Names(HubOf(text)) == Names(HubOf(hub)) + {BackendName(worker)}
  {
    var name := BackendName(worker);
    var new' := Backend(name, addr, pairCode, Some(true));
    NameIsPlain(worker);
    assert Writable(new');
    hide HubOf, HubText, Writable, BackendName;
    var rest := WithoutName(HubOf(hub), name);
    WithoutNameKeepsRest(HubOf(hub), name);
    assert forall b :: b in rest + [new'] ==> Writable(b);
    WrittenNames(rest + [new']);
    assert new' in rest + [new'];
    forall b | b in HubOf(hub)
      ensures b.name in Names(rest + [new'])
    {
      if b.name != name {
        assert b in rest + [new'];
      }
    }
  }

  lemma NameIsPlain(worker: string)
    requires IsSafeName(worker)
    ensures Plain(BackendName(worker)) && BackendName(worker) != ""
  {
    assert Sanitised(worker) == worker;
    assert forall i :: 0 <= i < |First(worker, 100)| ==> First(worker, 100)[i] in worker;
  }

  lemma SafeIsStripped(worker: string)
    requires IsSafeName(worker)
    ensures Strip(worker) == worker
  {
    assert worker[0] in worker && worker[|worker| - 1] in worker;
    StripKeeps(worker);
  }
}
