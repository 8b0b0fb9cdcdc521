/** The bounded structure check of request bodies. */
module JsonStructure {
  const MAX_DEPTH := 64
  const MAX_NODES := 100_000

  /** A parsed value: the children are the values of an object or the elements of a list. */
  datatype Json = Scalar | Compound(children: seq<Json>)

  function Children(j: Json): seq<Json> {
    if j.Scalar? then [] else j.children
  }

  // ---------- specification ----------

  function Nodes(j: Json): (n: nat)
    ensures n > 0
    decreases j
  {
    match j
    case Scalar => 1
    case Compound(children) => 1 + AllNodes(children)
  }

  function AllNodes(s: seq<Json>): (n: nat)
    ensures n >= |s|
    decreases s
  {
    if s == [] then 0 else Nodes(s[0]) + AllNodes(s[1..])
  }

  /** No value lies more than `room` levels below this one. */
  predicate Shallow(j: Json, room: int)
    decreases j
  {
    room >= 0 && (j.Compound? ==> AllShallow(j.children, room - 1))
  }

  predicate AllShallow(s: seq<Json>, room: int)
    decreases s
  {
    s == [] || (Shallow(s[0], room) && AllShallow(s[1..], room))
  }

  predicate Acceptable(j: Json) {
    Shallow(j, MAX_DEPTH) && Nodes(j) <= MAX_NODES
  }

  // ---------- the worklist ----------

  datatype Task = Task(item: Json, depth: nat)

  function Work(tasks: seq<Task>): (n: nat)
    ensures n >= |tasks|
  {
    if tasks == [] then 0 else Work(tasks[..|tasks| - 1]) + Nodes(tasks[|tasks| - 1].item)
  }

  predicate Promising(tasks: seq<Task>) {
    tasks == [] || (Promising(tasks[..|tasks| - 1]) && Shallow(tasks[|tasks| - 1].item, MAX_DEPTH - tasks[|tasks| - 1].depth))
  }

  function Tasks(s: seq<Json>, depth: nat): (r: seq<Task>)
    ensures |r| == |s|
  {
    seq(|s|, i requires 0 <= i < |s| => Task(s[i], depth))
  }

  lemma {:induction false} WorkConcat(a: seq<Task>, b: seq<Task>)
    ensures Work(a + b) == Work(a) + Work(b)
    ensures Promising(a + b) <==> Promising(a) && Promising(b)
  {
    if b == [] {
      assert a + b == a;
    } else {
      assert (a + b)[..|a + b| - 1] == a + b[..|b| - 1];
      WorkConcat(a, b[..|b| - 1]);
    }
  }

  /** The tasks of all children amount to the children. */
  lemma {:induction false} TasksAreChildren(s: seq<Json>, depth: nat)
    ensures Work(Tasks(s, depth)) == AllNodes(s)
    ensures Promising(Tasks(s, depth)) <==> AllShallow(s, MAX_DEPTH - depth)
    decreases |s|
  {
    if s != [] {
      var first := Task(s[0], depth);
      assert Tasks(s, depth) == [first] + Tasks(s[1..], depth);
      WorkConcat([first], Tasks(s[1..], depth));
      assert [first][..0] == [];
      assert Work([first]) == Nodes(s[0]);
      TasksAreChildren(s[1..], depth);
    }
  }

  lemma PopTask(tasks: seq<Task>)
    requires tasks != []
    ensures var rest, task := tasks[..|tasks| - 1], tasks[|tasks| - 1];
            && Work(tasks) == Work(rest) + Nodes(task.item)
            && (Promising(tasks) <==> Promising(rest) && Shallow(task.item, MAX_DEPTH - task.depth))
  {
  }

  lemma OpenTask(task: Task)
    ensures Nodes(task.item) == 1 + AllNodes(Children(task.item))
    ensures Shallow(task.item, MAX_DEPTH - task.depth) <==>
              task.depth <= MAX_DEPTH && AllShallow(Children(task.item), MAX_DEPTH - (task.depth + 1))
  {
  }

  lemma OneTask(task: Task)
    ensures Work([task]) == Nodes(task.item) && (Promising([task]) <==> Shallow(task.item, MAX_DEPTH - task.depth))
  {
    assert [task][..0] == [];
  }

  /** Accepts exactly the values of at most 64 levels below the root and at most 100000 nodes,
    and never holds more tasks than nodes that it may still visit. */
  method CheckStructure(value: Json) returns (ok: bool, ghost peak: nat)
    ensures ok <==> Acceptable(value)
    ensures peak <= MAX_NODES
  {
    var pending := [Task(value, 0)];
    var visited := 0;
    peak := 1;
    OneTask(Task(value, 0));
    hide Tasks, Work, Promising, Nodes, AllNodes, Shallow, AllShallow, Children;
    while pending != []
      invariant visited + Work(pending) == Nodes(value)
      invariant Promising(pending) <==> Shallow(value, MAX_DEPTH)
      invariant |pending| + visited <= MAX_NODES && |pending| <= peak <= MAX_NODES
      decreases Work(pending)
    {
      var task := pending[|pending| - 1];
      PopTask(pending);
      OpenTask(task);
      pending := pending[..|pending| - 1];
      visited := visited + 1;
      if task.depth > MAX_DEPTH || visited > MAX_NODES {
        return false, peak;
      }
      var children := Children(task.item);
      TasksAreChildren(children, task.depth + 1);
      if |children| + |pending| + visited > MAX_NODES {
        return false, peak;
      }
      WorkConcat(pending, Tasks(children, task.depth + 1));
      pending := pending + Tasks(children, task.depth + 1);
      peak := if |pending| > peak then |pending| else peak;
    }
    ok := true;
  }
}
