// execution_trace/analyzer.py: a depth-first walk over the execution tree
// the trace parser builds. Each path carries its own module map; a fork
// hands every child a clone of the map as it was at the fork, and module
// load, unload and OS-information entries update the map before the
// client's callback sees the entry.
module TraceAnalyzer {
  import opened Wrappers
  import opened TraceModules
  import TE = TraceEntries

  type Trace = seq<TE.Entry>

  /** What one call of the client's callback is given: the map after the update, and the entry. */
  datatype Event = Event(state: MapState, entry: TE.Entry)

  /** A stack element: a trace still to walk and the map it starts from. */
  datatype Pending = Pending(trace: Trace, state: MapState)

  // ---------------------------------------------------------------------
  // Sizes, for termination

  /** The number of entries and traces in an entry's subtree. */
  function EntrySize(e: TE.Entry): nat
    decreases e, 1
  {
    1 + (if e.item.ForkTree? then BranchesFrom(e, 0) else 0)
  }

  function BranchesFrom(e: TE.Entry, i: nat): nat
    requires e.item.ForkTree?
    decreases e, 0, |e.item.branches| - i
  {
    if i >= |e.item.branches| then 0
    else
      assert e.item.branches[i] in e.item.branches;
      BranchSize(e.item.branches[i]) + BranchesFrom(e, i + 1)
  }

  function BranchSize(b: TE.Branch): nat
    decreases b, 1
  {
    1 + EntriesFrom(b, 0)
  }

  function EntriesFrom(b: TE.Branch, i: nat): nat
    decreases b, 0, |b.trace| - i
  {
    if i >= |b.trace| then 0
    else
      assert b.trace[i] in b.trace;
      EntrySize(b.trace[i]) + EntriesFrom(b, i + 1)
  }

  /** The size of a trace: one for the trace, plus its entries' subtrees. */
  function TraceSize(t: Trace): nat
  {
    BranchSize(TE.Branch(0, t))
  }

  function Weight(ps: seq<Pending>): nat
  {
    if ps == [] then 0 else Weight(ps[..|ps| - 1]) + TraceSize(ps[|ps| - 1].trace)
  }

  lemma {:induction false} WeightAppend(a: seq<Pending>, b: seq<Pending>)
    ensures Weight(a + b) == Weight(a) + Weight(b)
    decreases |b|
  {
    if b == [] {
      assert a + b == a;
    } else {
      assert (a + b)[..|a + b| - 1] == a + b[..|b| - 1];
      WeightAppend(a, b[..|b| - 1]);
    }
  }

  /** The entries of a trace from `i` on do not depend on which branch holds it. */
  lemma {:induction false} EntriesFromTrace(b: TE.Branch, c: TE.Branch, i: nat)
    requires b.trace == c.trace
    ensures EntriesFrom(b, i) == EntriesFrom(c, i)
    decreases |b.trace| - i
  {
    if i < |b.trace| {
      EntriesFromTrace(b, c, i + 1);
    }
  }

  // ---------------------------------------------------------------------
  // One entry

  /** A byte string as the `str` Python 2 reads it. */
  function Text(b: TE.Bytes): string
  {
    seq(|b|, i requires 0 <= i < |b| => b[i] as char)
  }

  /**
   * The module a MOD_LOAD entry describes: its name and path, its process,
   * and one section [load base, load base + size) whose native address is
   * the native base. The section's permission flags are not consulted by
   * the map.
   */
  function LoadedModule(item: TE.Item): Module
    requires item.ModuleLoadItem?
  {
    var name := Text(TE.Name(item));
    Module(name, Text(TE.Path(item)), item.pid,
           [SectionDescriptor(name, item.loadBase, item.nativeBase, item.size, true, true, true)])
  }

  /** The module a MOD_UNLOAD entry removes: a one-byte section at the load base, native base 0. */
  function UnloadedModule(loadBase: nat, pid: nat): Module
  {
    Module([], [], pid, [SectionDescriptor([], loadBase, 0, 1, true, true, true)])
  }

  /** The effect of one entry: the map afterwards, the children it stacks, and whether it raised. */
  datatype Step = Step(state: MapState, pushes: seq<Pending>, outcome: Outcome)

  /** Every branch of a fork, paired with the map as it is at the fork (`state.clone()`). */
  function ForkPushes(bs: seq<TE.Branch>, st: MapState): (r: seq<Pending>)
    ensures |r| == |bs| && forall j :: 0 <= j < |bs| ==> r[j] == Pending(bs[j].trace, st)
  {
    if bs == [] then [] else ForkPushes(bs[..|bs| - 1], st) + [Pending(bs[|bs| - 1].trace, st)]
  }

  /**
   * The body of the loop over a trace's entries, before the callback: a
   * fork stacks each child with a clone of the map; OSINFO sets the kernel
   * start; MOD_LOAD adds the module, letting its exception escape;
   * MOD_UNLOAD removes the module and swallows any exception. An entry
   * without the attribute its type calls for raises AttributeError.
   */
  function Apply(st: MapState, e: TE.Entry): Step
  {
    var item := e.item;
    if e.header.entryType == TE.Fork then
      if item.ForkTree? then Step(st, ForkPushes(item.branches, st), Pass) else Step(st, [], Raise(AttributeError))
    else if e.header.entryType == TE.OsInfo then
      if item.Fixed? && item.cls == TE.TraceOSInfo && |item.values| == 1 then
        Step(st.(kernelStart := item.values[0]), [], Pass)
      else Step(st, [], Raise(AttributeError))
    else if e.header.entryType == TE.ModLoad then
      if item.ModuleLoadItem? then
        var (st', o) := AddModule(st, LoadedModule(item));
        Step(st', [], o)
      else Step(st, [], Raise(AttributeError))
    else if e.header.entryType == TE.ModUnload then
      if item.Fixed? && item.cls == TE.TraceModuleUnload && |item.values| == 3 then
        Step(RemoveModule(st, UnloadedModule(item.values[0], item.values[2])).0, [], Pass)
      else Step(st, [], Raise(AttributeError))
    else Step(st, [], Pass)
  }

  /**
   * The source's MOD_LOAD and MOD_UNLOAD branches call `Module` with six
   * positional arguments, but its constructor takes one (`pb_module`):
   * those two branches raise TypeError before touching the map.
   */
  function ApplyAsWritten(st: MapState, e: TE.Entry): Step
  {
    if e.header.entryType == TE.ModLoad || e.header.entryType == TE.ModUnload then Step(st, [], Raise(TypeError))
    else Apply(st, e)
  }

  // ---------------------------------------------------------------------
  // One trace

  /** The walk over one popped trace: the callbacks made, the children stacked, the final map and the outcome. */
  datatype Run = Run(events: seq<Event>, pushes: seq<Pending>, state: MapState, outcome: Outcome)

  /**
   * The entries of `t` from `i` on: each is applied and then given to the
   * callback; an exception ends the trace (and the walk) before the
   * callback sees that entry.
   */
  function RunFrom(t: Trace, i: nat, st: MapState): Run
    decreases |t| - i
  {
    if i >= |t| then Run([], [], st, Pass)
    else
      var s := Apply(st, t[i]);
      if s.outcome.Raise? then Run([], [], s.state, s.outcome)
      else
        var r := RunFrom(t, i + 1, s.state);
        Run([Event(s.state, t[i])] + r.events, s.pushes + r.pushes, r.state, r.outcome)
  }

  /** The children a fork stacks weigh what its branches do. */
  lemma {:induction false} ForkPushesWeight(e: TE.Entry, st: MapState, n: nat)
    requires e.item.ForkTree? && n <= |e.item.branches|
    ensures Weight(ForkPushes(e.item.branches[..n], st)) + BranchesFrom(e, n) == BranchesFrom(e, 0)
    decreases n
  {
    var bs := e.item.branches;
    if n > 0 {
      assert bs[..n][..n - 1] == bs[..n - 1];
      ForkPushesWeight(e, st, n - 1);
      EntriesFromTrace(TE.Branch(0, bs[n - 1].trace), bs[n - 1], 0);
    }
  }

  /** The children one entry stacks weigh less than the entry's subtree. */
  lemma ApplyWeight(st: MapState, e: TE.Entry)
    ensures Weight(Apply(st, e).pushes) < EntrySize(e)
  {
    if e.header.entryType == TE.Fork && e.item.ForkTree? {
      assert e.item.branches[..|e.item.branches|] == e.item.branches;
      ForkPushesWeight(e, st, |e.item.branches|);
    }
  }

  /** The children stacked from `i` on weigh less than the entries from `i` on. */
  lemma {:induction false} RunWeight(t: Trace, i: nat, st: MapState)
    ensures Weight(RunFrom(t, i, st).pushes) <= EntriesFrom(TE.Branch(0, t), i)
    decreases |t| - i
  {
    if i < |t| {
      var s := Apply(st, t[i]);
      if s.outcome.Pass? {
        var r := RunFrom(t, i + 1, s.state);
        RunWeight(t, i + 1, s.state);
        WeightAppend(s.pushes, r.pushes);
        ApplyWeight(st, t[i]);
        assert RunFrom(t, i, st).pushes == s.pushes + r.pushes;
      }
    }
  }

  // ---------------------------------------------------------------------
  // The walk

  /** The result of a walk: the callbacks made, and whether it ended by an exception. */
  type Walked = (seq<Event>, Outcome)

  /** `a`, then `b` unless `a` raised. */
  function Then(a: Walked, b: Walked): Walked
  {
    if a.1.Raise? then a else (a.0 + b.0, b.1)
  }

  /** `walk_tree` as written: pop the last pending trace, run it, stack its children. */
  function WalkStack(stack: seq<Pending>): Walked
    decreases Weight(stack)
  {
    if stack == [] then ([], Pass)
    else
      var top := stack[|stack| - 1];
      var r := RunFrom(top.trace, 0, top.state);
      if r.outcome.Raise? then (r.events, r.outcome)
      else
        RunWeight(top.trace, 0, top.state);
        WeightAppend(stack[..|stack| - 1], r.pushes);
        Then((r.events, Pass), WalkStack(stack[..|stack| - 1] + r.pushes))
  }

  function Reverse(ps: seq<Pending>): (r: seq<Pending>)
    ensures |r| == |ps| && forall i :: 0 <= i < |ps| ==> r[i] == ps[|ps| - 1 - i]
  {
    if ps == [] then [] else [ps[|ps| - 1]] + Reverse(ps[..|ps| - 1])
  }

  lemma {:induction false} ReverseWeight(ps: seq<Pending>)
    ensures Weight(Reverse(ps)) == Weight(ps)
    decreases |ps|
  {
    if ps != [] {
      var last := ps[|ps| - 1];
      ReverseWeight(ps[..|ps| - 1]);
      WeightAppend([last], Reverse(ps[..|ps| - 1]));
      assert [last][..0] == [];
    }
  }

  /**
   * Depth first: a trace's own entries, then the subtree of each child it
   * stacked, the last-stacked child first; the walk stops at the first
   * exception.
   */
  function Walk(t: Trace, st: MapState): Walked
    decreases TraceSize(t), 1
  {
    var r := RunFrom(t, 0, st);
    if r.outcome.Raise? then (r.events, r.outcome)
    else
      RunWeight(t, 0, st);
      ReverseWeight(r.pushes);
      Then((r.events, Pass), WalkAll(Reverse(r.pushes)))
  }

  /** The walks of `ps` one after the other. */
  function WalkAll(ps: seq<Pending>): Walked
    decreases Weight(ps), 2
  {
    if ps == [] then ([], Pass)
    else
      WeightAppend([ps[0]], ps[1..]);
      assert [ps[0]] + ps[1..] == ps;
      assert [ps[0]][..0] == [];
      Then(Walk(ps[0].trace, ps[0].state), WalkAll(ps[1..]))
  }

  lemma ThenAssoc(a: Walked, b: Walked, c: Walked)
    ensures Then(Then(a, b), c) == Then(a, Then(b, c))
  {
    assert a.0 + b.0 + c.0 == a.0 + (b.0 + c.0);
  }

  /** The children `RunFrom` stacks for one trace, and what walking them after it gives. */
  function Popped(p: Pending, after: Walked): Walked
  {
    var r := RunFrom(p.trace, 0, p.state);
    if r.outcome.Raise? then (r.events, r.outcome) else Then((r.events, Pass), after)
  }

  lemma WalkStackPop(stack: seq<Pending>)
    requires stack != []
    ensures var p := stack[|stack| - 1];
      var r := RunFrom(p.trace, 0, p.state);
      WalkStack(stack) == Popped(p, WalkStack(stack[..|stack| - 1] + r.pushes))
  {
  }

  lemma WalkUnfold(p: Pending)
    ensures var r := RunFrom(p.trace, 0, p.state);
      Walk(p.trace, p.state) == Popped(p, WalkAll(Reverse(r.pushes)))
  {
  }

  lemma WalkAllCons(ps: seq<Pending>)
    requires ps != []
    ensures WalkAll(ps) == Then(Walk(ps[0].trace, ps[0].state), WalkAll(ps[1..]))
  {
  }

  lemma PoppedThen(p: Pending, a: Walked, b: Walked)
    ensures Then(Popped(p, a), b) == Popped(p, Then(a, b))
  {
    var r := RunFrom(p.trace, 0, p.state);
    if r.outcome.Pass? {
      ThenAssoc((r.events, Pass), a, b);
    }
  }

  /** `ps` appended to the stack are walked, last first, before the rest of the stack. */
  lemma {:induction false} WalkStackAppend(rest: seq<Pending>, ps: seq<Pending>)
    ensures WalkStack(rest + ps) == Then(WalkAll(Reverse(ps)), WalkStack(rest))
    decreases Weight(rest + ps)
  {
    if ps == [] {
      assert rest + ps == rest;
      assert [] + WalkStack(rest).0 == WalkStack(rest).0;
    } else {
      var n := |ps|;
      var p := ps[n - 1];
      var front := ps[..n - 1];
      var stack := rest + ps;
      assert stack[..|stack| - 1] == rest + front && stack[|stack| - 1] == p;
      var rev := Reverse(ps);
      assert rev[0] == p && rev[1..] == Reverse(front);
      var r := RunFrom(p.trace, 0, p.state);
      WalkStackPop(stack);
      WalkAllCons(rev);
      WalkUnfold(p);
      PoppedThen(p, WalkAll(Reverse(r.pushes)), WalkAll(Reverse(front)));
      PoppedThen(p, Then(WalkAll(Reverse(r.pushes)), WalkAll(Reverse(front))), WalkStack(rest));
      if r.outcome.Pass? {
        WeightAppend(rest, ps);
        WeightAppend(rest, front);
        RunWeight(p.trace, 0, p.state);
        WeightAppend(rest + front, r.pushes);
        WalkStackAppend(rest + front, r.pushes);
        WalkStackAppend(rest, front);
        ThenAssoc(WalkAll(Reverse(r.pushes)), WalkAll(Reverse(front)), WalkStack(rest));
      }
    }
  }

  /** The stack walk is the depth-first walk of the tree. */
  lemma WalkStackIsDepthFirst(t: Trace, st: MapState)
    ensures WalkStack([Pending(t, st)]) == Walk(t, st)
  {
    WalkStackAppend([], [Pending(t, st)]);
    assert [] + [Pending(t, st)] == [Pending(t, st)];
    var rev := Reverse([Pending(t, st)]);
    assert rev == [Pending(t, st)];
    assert rev[1..] == [];
    var w := Walk(t, st);
    assert w.0 + [] == w.0;
    assert w.0 + [] + [] == w.0;
  }

  // ---------------------------------------------------------------------
  // What one entry does

  /** A well-formed entry: one carrying the attributes its type calls for. */
  predicate WellFormed(e: TE.Entry)
  {
    var item := e.item;
    (e.header.entryType == TE.Fork ==> item.ForkTree?) &&
    (e.header.entryType == TE.OsInfo ==> item.Fixed? && item.cls == TE.TraceOSInfo && |item.values| == 1) &&
    (e.header.entryType == TE.ModLoad ==> item.ModuleLoadItem?) &&
    (e.header.entryType == TE.ModUnload ==> item.Fixed? && item.cls == TE.TraceModuleUnload && |item.values| == 3)
  }

  /**
   * Every entry keeps the module map valid. A well-formed entry raises
   * exactly when it loads a module of size zero (the map's own exception);
   * an unload never raises, whatever the map holds.
   */
  lemma ApplySpec(st: MapState, e: TE.Entry)
    requires ValidMap(st)
    ensures var s := Apply(st, e);
      ValidMap(s.state) &&
      (!WellFormed(e) ==> s.outcome == Raise(AttributeError)) &&
      (WellFormed(e) ==>
        (s.outcome.Raise? <==> e.header.entryType == TE.ModLoad && e.item.size == 0) &&
        (s.outcome.Raise? ==> s.outcome.error == PlainException)) &&
      (e.header.entryType == TE.Fork ==> s.state == st) &&
      (forall j :: 0 <= j < |s.pushes| ==> s.pushes[j].state == st) &&
      (e.header.entryType !in {TE.Fork, TE.OsInfo, TE.ModLoad, TE.ModUnload} ==> s == Step(st, [], Pass))
  {
    var item := e.item;
    if e.header.entryType == TE.ModLoad && item.ModuleLoadItem? {
      var mod := LoadedModule(item);
      AddModuleSpec(st, mod);
      assert mod.sections[0].size == item.size;
    } else if e.header.entryType == TE.ModUnload && item.Fixed? && item.cls == TE.TraceModuleUnload && |item.values| == 3 {
      RemoveModuleSpec(st, UnloadedModule(item.values[0], item.values[2]));
    }
  }

  /**
   * A module load that goes through leaves its section loaded in its
   * process's map and mapped to the module; other processes are untouched.
   */
  lemma LoadAddsModule(st: MapState, e: TE.Entry)
    requires ValidMap(st) && e.header.entryType == TE.ModLoad && e.item.ModuleLoadItem?
    ensures var s := Apply(st, e);
      var mod := LoadedModule(e.item);
      s.outcome.Pass? ==>
        Loaded(s.state.pidToSections[e.item.pid], mod.sections[0]) &&
        s.state.kernelStart == st.kernelStart &&
        forall p :: p in st.pidToSections && p != e.item.pid ==> s.state.pidToSections[p] == st.pidToSections[p]
  {
    AddModuleSpec(st, LoadedModule(e.item));
  }

  /**
   * A module unload only ever drops sections and their modules: it maps no
   * section to a module that was not already mapped to it.
   */
  lemma UnloadOnlyRemoves(st: MapState, e: TE.Entry)
    requires ValidMap(st) && e.header.entryType == TE.ModUnload
    ensures var s := Apply(st, e);
      s.state.kernelStart == st.kernelStart &&
      forall k :: k in s.state.sectionToModule ==> k in st.sectionToModule && s.state.sectionToModule[k] == st.sectionToModule[k]
  {
    var item := e.item;
    if item.Fixed? && item.cls == TE.TraceModuleUnload && |item.values| == 3 {
      RemoveModuleSpec(st, UnloadedModule(item.values[0], item.values[2]));
    }
  }

  /** As written, every module load and unload raises TypeError and leaves the map as it was. */
  lemma ModuleEntryRaisesAsWritten(st: MapState, e: TE.Entry)
    requires ValidMap(st) && e.header.entryType in {TE.ModLoad, TE.ModUnload}
    ensures ApplyAsWritten(st, e) == Step(st, [], Raise(TypeError))
    ensures ApplyAsWritten(st, e) != Apply(st, e)
  {
    if e.header.entryType == TE.ModLoad && e.item.ModuleLoadItem? {
      AddModuleSpec(st, LoadedModule(e.item));
    }
  }

  // ---------------------------------------------------------------------
  // What a trace and a walk do

  lemma ConsEntries(t: Trace, i: nat, e: Event, rest: seq<Event>)
    requires i < |t| && e.entry == t[i] && |rest| <= |t| - i - 1
    requires forall j :: 0 <= j < |rest| ==> rest[j].entry == t[i + 1 + j]
    ensures forall j :: 0 <= j < |[e] + rest| ==> ([e] + rest)[j].entry == t[i + j]
  {
    forall j | 0 <= j < |[e] + rest|
      ensures ([e] + rest)[j].entry == t[i + j]
    {
      if j > 0 {
        assert ([e] + rest)[j] == rest[j - 1];
      }
    }
  }

  /**
   * The callback sees the entries of the trace in order, each once; all of
   * them when no entry raised.
   */
  lemma {:induction false} RunEvents(t: Trace, i: nat, st: MapState)
    requires i <= |t|
    ensures var r := RunFrom(t, i, st);
      |r.events| <= |t| - i &&
      (r.outcome.Pass? ==> |r.events| == |t| - i) &&
      forall j :: 0 <= j < |r.events| ==> r.events[j].entry == t[i + j]
    decreases |t| - i
  {
    if i < |t| {
      var s := Apply(st, t[i]);
      if s.outcome.Pass? {
        var r' := RunFrom(t, i + 1, s.state);
        RunEvents(t, i + 1, s.state);
        assert RunFrom(t, i, st).events == [Event(s.state, t[i])] + r'.events;
        ConsEntries(t, i, Event(s.state, t[i]), r'.events);
      }
    }
  }

  /** Every map the callback sees, every map stacked for a child, and the map a trace ends with are valid. */
  lemma {:induction false} RunValid(t: Trace, i: nat, st: MapState)
    requires ValidMap(st)
    ensures var r := RunFrom(t, i, st);
      (forall j :: 0 <= j < |r.events| ==> ValidMap(r.events[j].state)) &&
      (forall j :: 0 <= j < |r.pushes| ==> ValidMap(r.pushes[j].state)) &&
      ValidMap(r.state)
    decreases |t| - i
  {
    if i < |t| {
      var s := Apply(st, t[i]);
      ApplySpec(st, t[i]);
      if s.outcome.Pass? {
        var r' := RunFrom(t, i + 1, s.state);
        RunValid(t, i + 1, s.state);
        var r := RunFrom(t, i, st);
        assert r.events == [Event(s.state, t[i])] + r'.events;
        assert r.pushes == s.pushes + r'.pushes;
      }
    }
  }

  predicate AllValid(ps: seq<Pending>)
  {
    forall j :: 0 <= j < |ps| ==> ValidMap(ps[j].state)
  }

  /** Every map the callback sees along any path of the tree is valid. */
  lemma {:induction false} WalkValid(t: Trace, st: MapState)
    requires ValidMap(st)
    ensures forall j :: 0 <= j < |Walk(t, st).0| ==> ValidMap(Walk(t, st).0[j].state)
    decreases TraceSize(t), 1
  {
    var r := RunFrom(t, 0, st);
    RunValid(t, 0, st);
    if r.outcome.Pass? {
      RunWeight(t, 0, st);
      ReverseWeight(r.pushes);
      WalkAllValid(Reverse(r.pushes));
    }
  }

  lemma {:induction false} WalkAllValid(ps: seq<Pending>)
    requires AllValid(ps)
    ensures forall j :: 0 <= j < |WalkAll(ps).0| ==> ValidMap(WalkAll(ps).0[j].state)
    decreases Weight(ps), 2
  {
    if ps != [] {
      WeightAppend([ps[0]], ps[1..]);
      assert [ps[0]] + ps[1..] == ps;
      assert [ps[0]][..0] == [];
      WalkValid(ps[0].trace, ps[0].state);
      WalkAllValid(ps[1..]);
    }
  }

  // ---------------------------------------------------------------------
  // The analyzer

  /** A stack element of `walk_tree`: a trace and the state object that walks it. */
  type Slot = (Trace, ModuleMap)

  /** The objects of a stack. */
  function Maps(slots: seq<Slot>): set<ModuleMap>
  {
    set j | 0 <= j < |slots| :: slots[j].1
  }

  lemma MapsAppend(a: seq<Slot>, b: seq<Slot>)
    ensures Maps(a + b) == Maps(a) + Maps(b)
  {
    var ab := a + b;
    forall x | x in Maps(a + b) ensures x in Maps(a) + Maps(b)
    {
      var j :| 0 <= j < |ab| && ab[j].1 == x;
      if j >= |a| {
        assert ab[j] == b[j - |a|];
      }
    }
    forall x | x in Maps(a) ensures x in Maps(a + b)
    {
      var j :| 0 <= j < |a| && a[j].1 == x;
      assert ab[j] == a[j];
    }
    forall x | x in Maps(b) ensures x in Maps(a + b)
    {
      var j :| 0 <= j < |b| && b[j].1 == x;
      assert ab[|a| + j] == b[j];
    }
  }

  /** `slots` hold distinct valid maps whose contents and traces are `ps`. */
  ghost predicate Mirrors(slots: seq<Slot>, ps: seq<Pending>)
    reads Maps(slots)
  {
    |slots| == |ps| &&
    (forall j :: 0 <= j < |slots| ==> slots[j].1.Valid() && ps[j] == Pending(slots[j].0, slots[j].1.State())) &&
    (forall j, k :: 0 <= j < k < |slots| ==> slots[j].1 != slots[k].1)
  }

  lemma MirrorsAppend(a: seq<Slot>, p: seq<Pending>, b: seq<Slot>, q: seq<Pending>)
    requires Mirrors(a, p) && Mirrors(b, q)
    requires Maps(a) !! Maps(b)
    ensures Mirrors(a + b, p + q)
  {
    var ab, pq := a + b, p + q;
    forall j | 0 <= j < |ab|
      ensures ab[j].1.Valid() && pq[j] == Pending(ab[j].0, ab[j].1.State())
    {
      if j >= |a| {
        assert ab[j] == b[j - |a|] && pq[j] == q[j - |a|];
      }
    }
    forall j, k | 0 <= j < k < |ab|
      ensures ab[j].1 != ab[k].1
    {
      if k < |a| {
      } else if j < |a| {
        assert ab[k] == b[k - |a|];
        assert ab[j].1 in Maps(a) && b[k - |a|].1 in Maps(b);
      } else {
        assert ab[j] == b[j - |a|] && ab[k] == b[k - |a|];
      }
    }
  }

  lemma MirrorsPop(slots: seq<Slot>, ps: seq<Pending>)
    requires slots != [] && Mirrors(slots, ps)
    ensures var n := |slots|;
      Mirrors(slots[..n - 1], ps[..n - 1]) && slots[n - 1].1 !in Maps(slots[..n - 1]) &&
      slots[n - 1].1.Valid() && ps[n - 1] == Pending(slots[n - 1].0, slots[n - 1].1.State())
  {
  }

  /** One entry applied to the state object `m`; each branch of a fork gets a clone of it. */
  method ApplyEntry(m: ModuleMap, e: TE.Entry) returns (pushes: seq<Slot>, o: Outcome)
    requires m.Valid()
    modifies m
    ensures m.Valid()
    ensures var s := Apply(old(m.State()), e); m.State() == s.state && o == s.outcome && Mirrors(pushes, s.pushes)
    ensures fresh(Maps(pushes))
  {
    ghost var st := m.State();
    pushes, o := [], Pass;
    var item := e.item;
    if e.header.entryType == TE.Fork {
      if item.ForkTree? {
        var bs := item.branches;
        var j := 0;
        while j < |bs|
          invariant 0 <= j <= |bs| && |pushes| == j
          invariant unchanged(m)
          invariant forall k :: 0 <= k < j ==> fresh(pushes[k].1) && pushes[k].0 == bs[k].trace && pushes[k].1.Valid() && pushes[k].1.State() == st
          invariant forall k, l :: 0 <= k < l < j ==> pushes[k].1 != pushes[l].1
        {
          var c := m.Clone();
          pushes := pushes + [(bs[j].trace, c)];
          j := j + 1;
        }
      } else {
        o := Raise(AttributeError);
      }
    } else if e.header.entryType == TE.OsInfo {
      if item.Fixed? && item.cls == TE.TraceOSInfo && |item.values| == 1 {
        m.SetKernelStart(item.values[0]);
      } else {
        o := Raise(AttributeError);
      }
    } else if e.header.entryType == TE.ModLoad {
      if item.ModuleLoadItem? {
        o := m.Add(LoadedModule(item));
      } else {
        o := Raise(AttributeError);
      }
    } else if e.header.entryType == TE.ModUnload {
      if item.Fixed? && item.cls == TE.TraceModuleUnload && |item.values| == 3 {
        var _ := m.Remove(UnloadedModule(item.values[0], item.values[2]));
      } else {
        o := Raise(AttributeError);
      }
    }
  }

  /** One step of a trace's run, as the loop in `RunTrace` takes it. */
  lemma RunStep(t: Trace, i: nat, st: MapState, events: seq<Event>, ps: seq<Pending>)
    requires i < |t| && Apply(st, t[i]).outcome.Pass?
    ensures var s := Apply(st, t[i]);
      var r := RunFrom(t, i, st);
      var r' := RunFrom(t, i + 1, s.state);
      Run(events + r.events, ps + r.pushes, r.state, r.outcome) ==
        Run((events + [Event(s.state, t[i])]) + r'.events, (ps + s.pushes) + r'.pushes, r'.state, r'.outcome)
  {
    var s := Apply(st, t[i]);
    var r' := RunFrom(t, i + 1, s.state);
    assert events + ([Event(s.state, t[i])] + r'.events) == (events + [Event(s.state, t[i])]) + r'.events;
    assert ps + (s.pushes + r'.pushes) == (ps + s.pushes) + r'.pushes;
  }

  /** The loop over one popped trace: apply each entry to `m`, then record the callback. */
  method RunTrace(m: ModuleMap, t: Trace) returns (events: seq<Event>, pushes: seq<Slot>, o: Outcome)
    requires m.Valid()
    modifies m
    ensures m.Valid()
    ensures var r := RunFrom(t, 0, old(m.State()));
      events == r.events && o == r.outcome && m.State() == r.state && Mirrors(pushes, r.pushes)
    ensures fresh(Maps(pushes))
  {
    ghost var st0 := m.State();
    ghost var ps: seq<Pending> := [];
    events, pushes, o := [], [], Pass;
    var i := 0;
    while i < |t|
      invariant 0 <= i <= |t| && m.Valid()
      invariant Mirrors(pushes, ps)
      invariant fresh(Maps(pushes))
      invariant var r := RunFrom(t, i, m.State());
        RunFrom(t, 0, st0) == Run(events + r.events, ps + r.pushes, r.state, r.outcome)
    {
      ghost var st := m.State();
      assert m !in Maps(pushes);
      var more, out := ApplyEntry(m, t[i]);
      assert Mirrors(pushes, ps);
      if out.Raise? {
        o := out;
        assert RunFrom(t, i, st) == Run([], [], m.State(), out);
        assert events + [] == events && ps + [] == ps;
        return;
      }
      RunStep(t, i, st, events, ps);
      MirrorsAppend(pushes, ps, more, Apply(st, t[i]).pushes);
      MapsAppend(pushes, more);
      events := events + [Event(m.State(), t[i])];
      pushes, ps := pushes + more, ps + Apply(st, t[i]).pushes;
      i := i + 1;
    }
    assert events + [] == events && ps + [] == ps;
  }

  /** `Then` over two passing walks. */
  lemma ThenPass(a: seq<Event>, b: seq<Event>, c: Walked)
    ensures Then((a, Pass), Then((b, Pass), c)) == Then((a + b, Pass), c)
  {
    assert a + (b + c.0) == a + b + c.0;
  }

  /**
   * `walk_tree`: a stack of traces with their state objects, starting from
   * the tree and a fresh map. The callbacks it makes are those of the
   * depth-first walk; an exception ends it.
   */
  method WalkTree(tree: Trace) returns (events: seq<Event>, o: Outcome)
    ensures (events, o) == Walk(tree, EmptyMap)
  {
    var m0 := new ModuleMap();
    var stack: seq<Slot> := [(tree, m0)];
    ghost var pend := [Pending(tree, EmptyMap)];
    events, o := [], Pass;
    WalkStackIsDepthFirst(tree, EmptyMap);
    assert [] + Walk(tree, EmptyMap).0 == Walk(tree, EmptyMap).0;
    while stack != []
      invariant Mirrors(stack, pend)
      invariant fresh(Maps(stack))
      invariant Then((events, Pass), WalkStack(pend)) == Walk(tree, EmptyMap)
      decreases Weight(pend)
    {
      var (t, m) := stack[|stack| - 1];
      ghost var top := pend[|pend| - 1];
      ghost var rest := pend[..|pend| - 1];
      ghost var r := RunFrom(top.trace, 0, top.state);
      WalkStackPop(pend);
      MirrorsPop(stack, pend);
      assert m in Maps(stack);
      ghost var before := Maps(stack);
      stack := stack[..|stack| - 1];
      assert Maps(stack) <= before;
      assert forall x :: x in Maps(stack) ==> x in before;
      assert fresh(Maps(stack));
      var evs, pushes, out := RunTrace(m, t);
      assert Mirrors(stack, rest);
      assert fresh(Maps(stack) + Maps(pushes));
      if out.Raise? {
        events, o := events + evs, out;
        return;
      }
      RunWeight(top.trace, 0, top.state);
      WeightAppend(rest, r.pushes);
      ThenPass(events, evs, WalkStack(rest + r.pushes));
      MirrorsAppend(stack, rest, pushes, r.pushes);
      MapsAppend(stack, pushes);
      events := events + evs;
      stack, pend := stack + pushes, rest + r.pushes;
    }
    assert events + [] == events;
  }
}
