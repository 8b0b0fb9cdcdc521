/** Cycle detection over the references between entries. */
module RefGraph {
  import opened ImportTypes
  import opened Metadata

  /** Each existing name with the names its entry refers to, in order; a later entry of the
    same name replaces an earlier one. */
  type Graph = map<string, seq<string>>

  function Targets(refs: seq<Ref>): seq<string> {
    seq(|refs|, i requires 0 <= i < |refs| => refs[i].name)
  }

  function GraphOf(entries: seq<Entry>): Graph {
    if entries == [] then map[]
    else
      var last := entries[|entries| - 1];
      GraphOf(entries[..|entries| - 1])[last.name := Targets(last.refs)]
  }

  predicate Edge(g: Graph, a: string, b: string) {
    a in g && b in g && b in g[a]
  }

  /** A walk along references between existing names. */
  ghost predicate Walk(g: Graph, p: seq<string>) {
    forall i :: 0 <= i < |p| - 1 ==> Edge(g, p[i], p[i + 1])
  }

  ghost predicate Cycle(g: Graph, p: seq<string>) {
    |p| >= 2 && p[0] == p[|p| - 1] && Walk(g, p)
  }

  ghost predicate Cyclic(g: Graph) {
    exists p :: Cycle(g, p)
  }

  datatype Color = White | Gray | Black

  /** A name on the search path and how many of its references were already taken. */
  datatype Frame = Frame(name: string, taken: nat)

  // ---------- ranks of finished names ----------

  /** Every finished name has only finished successors, of smaller rank. */
  ghost predicate Ranked(g: Graph, rank: map<string, nat>) {
    forall a, b :: a in rank && Edge(g, a, b) ==> b in rank && rank[b] < rank[a]
  }

  ghost predicate Below(rank: map<string, nat>, height: nat) {
    forall n :: n in rank ==> rank[n] < height
  }

  /** A walk that starts at a ranked name stays ranked and descends. */
  lemma {:induction false} WalkDescends(g: Graph, rank: map<string, nat>, p: seq<string>, k: nat)
    requires Ranked(g, rank) && Walk(g, p) && 0 < k < |p| && p[0] in rank
    ensures p[k] in rank && rank[p[k]] < rank[p[0]]
  {
    if k > 1 {
      WalkDescends(g, rank, p, k - 1);
    }
    assert Edge(g, p[k - 1], p[k]);
  }

  /** A graph in which every name is ranked has no cycle. */
  lemma RankedIsAcyclic(g: Graph, rank: map<string, nat>)
    requires Ranked(g, rank) && g.Keys <= rank.Keys
    ensures !Cyclic(g)
  {
    forall p ensures !Cycle(g, p) {
      if |p| >= 2 && Walk(g, p) {
        assert Edge(g, p[0], p[1]);
        WalkDescends(g, rank, p, |p| - 1);
      }
    }
  }

  // ---------- search invariant ----------

  function Remaining(g: Graph, stack: seq<Frame>): nat {
    if stack == [] then 0
    else
      var top := stack[|stack| - 1];
      Remaining(g, stack[..|stack| - 1]) + 1
      + (if top.name in g && top.taken <= |g[top.name]| then |g[top.name]| - top.taken else 0)
  }

  ghost predicate Settled(g: Graph, rank: map<string, nat>, name: string, upto: nat)
    requires name in g && upto <= |g[name]|
  {
    forall j :: 0 <= j < upto && g[name][j] in g ==> g[name][j] in rank
  }

  /** Every frame but the top waits for the name above it; all references taken before are
    settled. */
  ghost predicate FrameSound(g: Graph, rank: map<string, nat>, stack: seq<Frame>, i: nat)
    requires i < |stack|
  {
    var f := stack[i];
    && f.name in g && f.taken <= |g[f.name]|
    && if i == |stack| - 1 then Settled(g, rank, f.name, f.taken)
       else f.taken > 0 && g[f.name][f.taken - 1] == stack[i + 1].name && Settled(g, rank, f.name, f.taken - 1)
  }

  ghost predicate StackSound(g: Graph, rank: map<string, nat>, stack: seq<Frame>) {
    && (forall i :: 0 <= i < |stack| ==> FrameSound(g, rank, stack, i))
    && (forall i, j :: 0 <= i < j < |stack| ==> stack[i].name != stack[j].name)
  }

  ghost predicate OnStack(stack: seq<Frame>, name: string) {
    exists i :: 0 <= i < |stack| && stack[i].name == name
  }

  ghost predicate Search(g: Graph, color: map<string, Color>, rank: map<string, nat>, height: nat, stack: seq<Frame>) {
    && color.Keys == g.Keys
    && (forall n :: n in color ==> (color[n] == Black <==> n in rank))
    && (forall n :: n in color ==> (color[n] == Gray <==> OnStack(stack, n)))
    && rank.Keys <= g.Keys && Ranked(g, rank)
    && Below(rank, height)
    && StackSound(g, rank, stack)
  }

  function Names(stack: seq<Frame>): seq<string> {
    seq(|stack|, i requires 0 <= i < |stack| => stack[i].name)
  }

  /** A reference from the end of a walk back to one of its names closes a cycle. */
  lemma ClosedWalk(g: Graph, names: seq<string>, k: nat)
    requires Walk(g, names) && k < |names| && names[k] in g
    requires names[|names| - 1] in g && names[k] in g[names[|names| - 1]]
    ensures Cyclic(g)
  {
    var p := names[k..] + [names[k]];
    forall i | 0 <= i < |p| - 1 ensures Edge(g, p[i], p[i + 1]) {
      if k + i < |names| - 1 {
        assert Edge(g, names[k + i], names[k + i + 1]);
      }
    }
    assert Cycle(g, p);
  }

  /** A reference from the top of the stack back into the stack closes a cycle. */
  lemma BackReferenceIsCycle(g: Graph, color: map<string, Color>, rank: map<string, nat>, height: nat, stack: seq<Frame>, target: string)
    requires Search(g, color, rank, height, stack) && stack != [] && OnStack(stack, target)
    requires var top := stack[|stack| - 1].name; top in g && target in g[top]
    ensures Cyclic(g)
  {
    StackIsWalk(g, rank, stack);
    hide Search, Cyclic, Edge;
    var k :| 0 <= k < |stack| && stack[k].name == target;
    assert stack[k].name in g;
    ClosedWalk(g, Names(stack), k);
  }

  /** Each name on the stack refers to the one above it. */
  lemma StackIsWalk(g: Graph, rank: map<string, nat>, stack: seq<Frame>)
    requires StackSound(g, rank, stack)
    ensures forall i :: 0 <= i < |stack| ==> stack[i].name in g
    ensures forall i :: 0 <= i < |stack| - 1 ==> Edge(g, stack[i].name, stack[i + 1].name)
  {
    hide Settled;
    forall i | 0 <= i < |stack| - 1 ensures Edge(g, stack[i].name, stack[i + 1].name) {
      assert FrameSound(g, rank, stack, i) && FrameSound(g, rank, stack, i + 1);
    }
    forall i | 0 <= i < |stack| ensures stack[i].name in g {
      assert FrameSound(g, rank, stack, i);
    }
  }

  lemma RemainingPushed(g: Graph, below: seq<Frame>, top: Frame)
    requires top.name in g && top.taken <= |g[top.name]|
    ensures Remaining(g, below + [top]) == Remaining(g, below) + 1 + |g[top.name]| - top.taken
  {
    assert (below + [top])[..|below|] == below;
  }

  function Whites(color: map<string, Color>): set<string> {
    set n | n in color && color[n] == White
  }

  /** One turn loses no name from the stack but into the ranks, and comes closer to the end. */
  ghost predicate Progress(g: Graph, color: map<string, Color>, stack: seq<Frame>,
                           color': map<string, Color>, rank': map<string, nat>, stack': seq<Frame>) {
    && (forall n :: OnStack(stack, n) ==> n in rank' || OnStack(stack', n))
    && (Whites(color') < Whites(color) || (Whites(color') == Whites(color) && Remaining(g, stack') < Remaining(g, stack)))
  }

  lemma PushedNames(stack: seq<Frame>, top: Frame)
    ensures forall n :: OnStack(stack + [top], n) <==> OnStack(stack, n) || n == top.name
  {
    forall n ensures OnStack(stack + [top], n) <==> OnStack(stack, n) || n == top.name {
      if OnStack(stack, n) {
        var i :| 0 <= i < |stack| && stack[i].name == n;
        assert (stack + [top])[i].name == n;
      }
      assert (stack + [top])[|stack|].name == top.name;
    }
  }

  /** Ranking a name above everything ranked so far, once its references are settled. */
  lemma RankTop(g: Graph, rank: map<string, nat>, height: nat, top: string)
    requires Ranked(g, rank) && Below(rank, height) && top in g && top !in rank
    requires Settled(g, rank, top, |g[top]|)
    ensures Ranked(g, rank[top := height]) && Below(rank[top := height], height + 1)
  {
    var rank' := rank[top := height];
    forall a, b | a in rank' && Edge(g, a, b) ensures b in rank' && rank'[b] < rank'[a] {
      if a == top {
        var j :| 0 <= j < |g[top]| && g[top][j] == b;
      }
    }
  }

  lemma PopSound(g: Graph, rank: map<string, nat>, height: nat, below: seq<Frame>, top: Frame)
    requires StackSound(g, rank, below + [top])
    ensures StackSound(g, rank[top.name := height], below)
  {
    var stack, rank' := below + [top], rank[top.name := height];
    forall i | 0 <= i < |below| ensures FrameSound(g, rank', below, i) {
      assert FrameSound(g, rank, stack, i);
      assert stack[i] == below[i];
      assert i < |below| - 1 ==> stack[i + 1] == below[i + 1];
      assert Settled(g, rank, below[i].name, below[i].taken - 1);
    }
    forall i, j | 0 <= i < j < |below| ensures below[i].name != below[j].name {
      assert stack[i].name != stack[j].name;
    }
  }

  /** Finishing the top of the stack: all its references are settled, so it can be ranked. */
  lemma FinishTop(g: Graph, color: map<string, Color>, rank: map<string, nat>, height: nat, below: seq<Frame>, top: Frame)
    requires Search(g, color, rank, height, below + [top]) && top.name in g && top.taken == |g[top.name]|
    ensures Search(g, color[top.name := Black], rank[top.name := height], height + 1, below)
    ensures Progress(g, color, below + [top], color[top.name := Black], rank[top.name := height], below)
  {
    RemainingPushed(g, below, top);
    assert Whites(color[top.name := Black]) == Whites(color);
    PushedNames(below, top);
    var stack := below + [top];
    assert FrameSound(g, rank, stack, |below|);
    RankTop(g, rank, height, top.name);
    PopSound(g, rank, height, below, top);
    assert !OnStack(below, top.name) by {
      forall i | 0 <= i < |below| ensures below[i].name != top.name {
        assert stack[i].name != stack[|below|].name;
      }
    }
  }

  lemma EnterSound(g: Graph, rank: map<string, nat>, below: seq<Frame>, top: Frame)
    requires StackSound(g, rank, below + [top]) && top.name in g && top.taken < |g[top.name]|
    requires var target := g[top.name][top.taken]; target in g && !OnStack(below + [top], target)
    ensures StackSound(g, rank, below + [Frame(top.name, top.taken + 1)] + [Frame(g[top.name][top.taken], 0)])
  {
    var stack := below + [top];
    var target := g[top.name][top.taken];
    var stack' := below + [Frame(top.name, top.taken + 1)] + [Frame(target, 0)];
    forall i | 0 <= i < |stack'| ensures FrameSound(g, rank, stack', i) {
      if i < |stack| { assert FrameSound(g, rank, stack, i); }
    }
    forall i | 0 <= i < |stack| ensures stack'[i].name == stack[i].name && stack[i].name != target {}
  }

  /** Entering a white name that the top of the stack refers to next. */
  lemma EnterTarget(g: Graph, color: map<string, Color>, rank: map<string, nat>, height: nat, below: seq<Frame>, top: Frame)
    requires Search(g, color, rank, height, below + [top]) && top.name in g && top.taken < |g[top.name]|
    requires g[top.name][top.taken] in g && color[g[top.name][top.taken]] == White
    ensures Search(g, color[g[top.name][top.taken] := Gray], rank, height,
                   below + [Frame(top.name, top.taken + 1)] + [Frame(g[top.name][top.taken], 0)])
    ensures Progress(g, color, below + [top], color[g[top.name][top.taken] := Gray], rank,
                     below + [Frame(top.name, top.taken + 1)] + [Frame(g[top.name][top.taken], 0)])
  {
    assert g[top.name][top.taken] in Whites(color);
    assert Whites(color[g[top.name][top.taken] := Gray]) == Whites(color) - {g[top.name][top.taken]};
    var target := g[top.name][top.taken];
    EnterSound(g, rank, below, top);
    PushedNames(below, top);
    PushedNames(below, Frame(top.name, top.taken + 1));
    PushedNames(below + [Frame(top.name, top.taken + 1)], Frame(target, 0));
  }

  lemma SkipSound(g: Graph, rank: map<string, nat>, below: seq<Frame>, top: Frame)
    requires StackSound(g, rank, below + [top]) && top.name in g && top.taken < |g[top.name]|
    requires g[top.name][top.taken] in g ==> g[top.name][top.taken] in rank
    ensures StackSound(g, rank, below + [Frame(top.name, top.taken + 1)])
  {
    var stack, stack' := below + [top], below + [Frame(top.name, top.taken + 1)];
    forall i | 0 <= i < |stack'| ensures FrameSound(g, rank, stack', i) {
      assert FrameSound(g, rank, stack, i);
    }
    forall i | 0 <= i < |stack| ensures stack'[i].name == stack[i].name {}
  }

  /** Passing over a reference that is missing or already finished. */
  lemma SkipTarget(g: Graph, color: map<string, Color>, rank: map<string, nat>, height: nat, below: seq<Frame>, top: Frame)
    requires Search(g, color, rank, height, below + [top]) && top.name in g && top.taken < |g[top.name]|
    requires g[top.name][top.taken] in g ==> color[g[top.name][top.taken]] == Black
    ensures Search(g, color, rank, height, below + [Frame(top.name, top.taken + 1)])
    ensures Progress(g, color, below + [top], color, rank, below + [Frame(top.name, top.taken + 1)])
  {
    SkipSound(g, rank, below, top);
    RemainingPushed(g, below, top);
    RemainingPushed(g, below, Frame(top.name, top.taken + 1));
    PushedNames(below, top);
    PushedNames(below, Frame(top.name, top.taken + 1));
  }

  /** Between two roots nothing is gray. */
  ghost predicate Idle(g: Graph, color: map<string, Color>, rank: map<string, nat>, height: nat) {
    && color.Keys == g.Keys && rank.Keys <= g.Keys
    && (forall n :: n in color ==> color[n] == if n in rank then Black else White)
    && Ranked(g, rank) && Below(rank, height)
  }

  lemma IdleIsSearch(g: Graph, color: map<string, Color>, rank: map<string, nat>, height: nat)
    ensures Idle(g, color, rank, height) <==> Search(g, color, rank, height, [])
  {
    assert forall n :: !OnStack([], n);
    if Search(g, color, rank, height, []) {
      forall n | n in color ensures color[n] == if n in rank then Black else White {
        assert color[n] == Gray <==> OnStack([], n);
      }
    }
  }

  lemma StartRoot(g: Graph, color: map<string, Color>, rank: map<string, nat>, height: nat, root: string)
    requires Search(g, color, rank, height, []) && root in g && color[root] == White
    ensures Search(g, color[root := Gray], rank, height, [Frame(root, 0)])
  {
    assert forall n :: !OnStack([], n);
    forall n ensures OnStack([Frame(root, 0)], n) <==> n == root {
      assert [Frame(root, 0)][0].name == root;
    }
  }

  /** One turn of the search loop on the name at the top of the stack: finish it, find a
    cycle, enter the next name or pass over it. */
  method Turn(g: Graph, color: map<string, Color>, ghost rank: map<string, nat>, ghost height: nat, stack: seq<Frame>)
    returns (raised: bool, color': map<string, Color>, ghost rank': map<string, nat>, ghost height': nat, stack': seq<Frame>)
    requires Search(g, color, rank, height, stack) && stack != []
    ensures raised ==> Cyclic(g)
    ensures !raised ==> Search(g, color', rank', height', stack') && rank.Keys <= rank'.Keys
    ensures !raised ==> Progress(g, color, stack, color', rank', stack')
  {
    raised, color', rank', height', stack' := false, color, rank, height, stack;
    var below, top := stack[..|stack| - 1], stack[|stack| - 1];
    assert stack == below + [top];
    assert FrameSound(g, rank, stack, |below|);
    if top.taken == |g[top.name]| {
      FinishTop(g, color, rank, height, below, top);
      color', stack' := color[top.name := Black], below;
      rank', height' := rank[top.name := height], height + 1;
    } else {
      var target := g[top.name][top.taken];
      if target == top.name || (target in color && color[target] == Gray) {
        assert stack[|below|].name == top.name;
        BackReferenceIsCycle(g, color, rank, height, stack, target);
        return true, color, rank, height, stack;
      }
      if target in color && color[target] == White {
        EnterTarget(g, color, rank, height, below, top);
        color', stack' := color[target := Gray], below + [Frame(top.name, top.taken + 1)] + [Frame(target, 0)];
      } else {
        SkipTarget(g, color, rank, height, below, top);
        stack' := below + [Frame(top.name, top.taken + 1)];
      }
    }
  }

  /** Explores everything reachable from a white root with an explicit stack. */
  method Explore(g: Graph, start: map<string, Color>, ghost ranked: map<string, nat>, ghost tall: nat, root: string)
    returns (raised: bool, color: map<string, Color>, ghost rank: map<string, nat>, ghost height: nat)
    requires Idle(g, start, ranked, tall) && root in g && start[root] == White
    ensures raised ==> Cyclic(g)
    ensures !raised ==> Idle(g, color, rank, height) && ranked.Keys + {root} <= rank.Keys
  {
    IdleIsSearch(g, start, ranked, tall);
    StartRoot(g, start, ranked, tall, root);
    raised, color, rank, height := false, start[root := Gray], ranked, tall;
    var stack := [Frame(root, 0)];
    assert stack[0].name == root;
    while stack != []
      invariant Search(g, color, rank, height, stack)
      invariant root in rank || OnStack(stack, root)
      invariant ranked.Keys <= rank.Keys
      decreases Whites(color), Remaining(g, stack)
    {
      raised, color, rank, height, stack := Turn(g, color, rank, height, stack);
      if raised { return; }
    }
    IdleIsSearch(g, color, rank, height);
  }

  /** The iterative depth-first search: it raises exactly when some walk of references between
    existing names comes back to where it started.  A reference to a missing name never
    makes it raise. */
  method DetectCycles(entries: seq<Entry>) returns (raised: bool)
    ensures raised <==> Cyclic(GraphOf(entries))
  {
    var g := GraphOf(entries);
    var color := map n | n in g :: White;
    ghost var rank: map<string, nat>, height: nat := map[], 0;
    for e := 0 to |entries|
      invariant Idle(g, color, rank, height)
      invariant forall i :: 0 <= i < e ==> entries[i].name in rank
    {
      var root := entries[e].name;
      NameIsKey(entries, e);
      if color[root] == White {
        raised, color, rank, height := Explore(g, color, rank, height, root);
        if raised { return; }
      }
    }
    KeysAreNames(entries, rank);
    RankedIsAcyclic(g, rank);
    return false;
  }

  lemma {:induction false} NameIsKey(entries: seq<Entry>, i: nat)
    requires i < |entries|
    ensures entries[i].name in GraphOf(entries)
  {
    if i < |entries| - 1 {
      NameIsKey(entries[..|entries| - 1], i);
    }
  }

  lemma {:induction false} KeysAreNames(entries: seq<Entry>, rank: map<string, nat>)
    requires forall i :: 0 <= i < |entries| ==> entries[i].name in rank
    ensures GraphOf(entries).Keys <= rank.Keys
  {
    if entries != [] {
      KeysAreNames(entries[..|entries| - 1], rank);
    }
  }

  // ---------- cycles in terms of the entries ----------

  /** The entry that counts under its name. */
  ghost predicate Counts(entries: seq<Entry>, i: int) {
    0 <= i < |entries| && forall j :: i < j < |entries| ==> entries[j].name != entries[i].name
  }

  ghost predicate Refers(entries: seq<Entry>, i: int, j: int) {
    Counts(entries, i) && Counts(entries, j) && exists ref :: ref in entries[i].refs && ref.name == entries[j].name
  }

  /** Entries that refer one to the next and the last one to the first. */
  ghost predicate Loop(entries: seq<Entry>, p: seq<int>) {
    |p| >= 2 && p[0] == p[|p| - 1] && forall k :: 0 <= k < |p| - 1 ==> Refers(entries, p[k], p[k + 1])
  }

  lemma {:induction false} GraphHas(entries: seq<Entry>)
    ensures forall i :: Counts(entries, i) ==> entries[i].name in GraphOf(entries) && GraphOf(entries)[entries[i].name] == Targets(entries[i].refs)
    ensures forall name :: name in GraphOf(entries) ==> exists i :: Counts(entries, i) && entries[i].name == name
  {
    if entries != [] {
      var front := entries[..|entries| - 1];
      GraphHas(front);
      hide Targets;
      assert Counts(entries, |entries| - 1);
      forall i | 0 <= i < |entries| - 1 ensures Counts(entries, i) <==> Counts(front, i) && entries[i].name != entries[|entries| - 1].name {
        if Counts(front, i) && entries[i].name != entries[|entries| - 1].name {
          forall j | i < j < |entries| ensures entries[j].name != entries[i].name {
            assert j < |front| ==> front[j] == entries[j];
          }
        }
        if Counts(entries, i) {
          assert forall j :: i < j < |front| ==> front[j] == entries[j];
        }
      }
    }
  }

  lemma EdgeIff(entries: seq<Entry>, i: int, j: int)
    requires Counts(entries, i) && Counts(entries, j)
    ensures Edge(GraphOf(entries), entries[i].name, entries[j].name) <==> Refers(entries, i, j)
  {
    GraphHas(entries);
    var refs, targets := entries[i].refs, Targets(entries[i].refs);
    hide GraphOf, Counts;
    if entries[j].name in targets {
      var k :| 0 <= k < |targets| && targets[k] == entries[j].name;
      assert refs[k] in refs;
    }
    if ref :| ref in refs && ref.name == entries[j].name {
      var k :| 0 <= k < |refs| && refs[k] == ref;
      assert targets[k] in targets;
    }
  }

  /** The graph has a cycle exactly when entries refer to one another in a loop. */
  lemma CyclicIff(entries: seq<Entry>)
    ensures Cyclic(GraphOf(entries)) <==> exists p :: Loop(entries, p)
  {
    var g := GraphOf(entries);
    GraphHas(entries);
    hide GraphOf, Counts, Refers, Edge;
    if q :| Cycle(g, q) {
      hide Cycle;
      CycleIsLoop(entries, q);
    }
    if p :| Loop(entries, p) {
      hide Loop;
      LoopIsCycle(entries, p);
    }
  }

  /** The place of the entry that counts under this name. */
  ghost function PlaceOf(entries: seq<Entry>, name: string): int
    requires name in GraphOf(entries)
  {
    GraphHas(entries);
    var i :| Counts(entries, i) && entries[i].name == name;
    i
  }

  lemma CycleIsLoop(entries: seq<Entry>, q: seq<string>)
    requires Cycle(GraphOf(entries), q)
    ensures exists p :: Loop(entries, p)
  {
    var g := GraphOf(entries);
    forall k | 0 <= k < |q| ensures q[k] in g {
      assert k < |q| - 1 ==> Edge(g, q[k], q[k + 1]);
      assert k > 0 ==> Edge(g, q[k - 1], q[k]);
    }
    var p := seq(|q|, k requires 0 <= k < |q| && q[k] in g => PlaceOf(entries, q[k]));
    forall k | 0 <= k < |p| - 1 ensures Refers(entries, p[k], p[k + 1]) {
      assert Edge(g, q[k], q[k + 1]);
      EdgeIff(entries, p[k], p[k + 1]);
    }
    assert Loop(entries, p);
  }

  lemma LoopIsCycle(entries: seq<Entry>, p: seq<int>)
    requires Loop(entries, p)
    ensures Cyclic(GraphOf(entries))
  {
    forall k | 0 <= k < |p| ensures Counts(entries, p[k]) {
      assert k < |p| - 1 ==> Refers(entries, p[k], p[k + 1]);
      assert k > 0 ==> Refers(entries, p[k - 1], p[k]);
    }
    var q := seq(|p|, k requires 0 <= k < |p| && Counts(entries, p[k]) => entries[p[k]].name);
    forall k | 0 <= k < |q| - 1 ensures Edge(GraphOf(entries), q[k], q[k + 1]) {
      assert Refers(entries, p[k], p[k + 1]);
      EdgeIff(entries, p[k], p[k + 1]);
    }
    assert Cycle(GraphOf(entries), q);
  }
}
