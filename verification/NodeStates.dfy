/** Node states: batches of updates, retention that always spares the newest rows of each node,
    and the move policy that archives what it is about to delete. */
module NodeStates {
  import opened Prelude

  datatype Node = Node(id: int, host: string, cluster: string)

  /** A row of `node_state`; `payload` stands for its state, health and allocation columns. */
  datatype State = State(id: int, node: int, ts: int, payload: string)

  datatype DB = DB(nodes: seq<Node>, states: seq<State>)

  // ----- batches

  /** `known`: the node has a subcluster; `valid`: the row passes the CHECK constraints. */
  datatype Update = Update(host: string, cluster: string, known: bool, valid: bool, ts: int, payload: string)

  function NodeIndex(nodes: seq<Node>, host: string, cluster: string): (i: int)
    ensures -1 <= i < |nodes|
    ensures i >= 0 ==> nodes[i].host == host && nodes[i].cluster == cluster
    ensures i == -1 <==> forall n :: n in nodes ==> !(n.host == host && n.cluster == cluster)
  {
    if nodes == [] then -1
    else if nodes[|nodes| - 1].host == host && nodes[|nodes| - 1].cluster == cluster then |nodes| - 1
    else NodeIndex(nodes[..|nodes| - 1], host, cluster)
  }

  function NextNode(nodes: seq<Node>): int {
    if nodes == [] then 1 else nodes[|nodes| - 1].id + 1
  }

  function NextState(states: seq<State>): int {
    if states == [] then 1 else states[|states| - 1].id + 1
  }

  /** Look the node up or create it, then append a state row. */
  function ApplyUpdate(db: DB, u: Update): DB {
    var i := NodeIndex(db.nodes, u.host, u.cluster);
    if i == -1 && !u.known then db
    else
      var id := if i == -1 then NextNode(db.nodes) else db.nodes[i].id;
      var nodes := if i == -1 then db.nodes + [Node(id, u.host, u.cluster)] else db.nodes;
      DB(nodes, if u.valid then db.states + [State(NextState(db.states), id, u.ts, u.payload)] else db.states)
  }

  function ApplyBatch(db: DB, updates: seq<Update>): DB {
    if updates == [] then db
    else ApplyUpdate(ApplyBatch(db, updates[..|updates| - 1]), updates[|updates| - 1])
  }

  /** One update: a known node, or a new one that can be placed, gets the row under a fresh id if the row is valid;
      a new node is added once; nothing that was there changes. */
  lemma UpdateAdds(db: DB, u: Update)
    ensures var t := ApplyUpdate(db, u);
            && db.nodes <= t.nodes && db.states <= t.states
            && ((exists n :: n in t.nodes && n.host == u.host && n.cluster == u.cluster) <==>
                u.known || exists n :: n in db.nodes && n.host == u.host && n.cluster == u.cluster)
            && |t.nodes| == |db.nodes| + (if u.known && NodeIndex(db.nodes, u.host, u.cluster) == -1 then 1 else 0)
    ensures var t := ApplyUpdate(db, u);
            if u.valid && (u.known || exists n :: n in db.nodes && n.host == u.host && n.cluster == u.cluster) then
              && |t.states| == |db.states| + 1
              && var row := t.states[|db.states|];
              && row.ts == u.ts && row.payload == u.payload
              && row.id == (if db.states == [] then 1 else db.states[|db.states| - 1].id + 1)
              && exists n :: n in t.nodes && n.id == row.node && n.host == u.host && n.cluster == u.cluster
            else t.states == db.states
  {
    var i, t := NodeIndex(db.nodes, u.host, u.cluster), ApplyUpdate(db, u);
    if i == -1 && u.known {
      assert t.nodes == db.nodes + [t.nodes[|db.nodes|]];
    } else if i != -1 {
      assert t.nodes == db.nodes && t.nodes[i] in t.nodes;
    }
  }

  /** After a batch, every valid update of it that could be placed has its row, for its own node. */
  lemma {:induction false} BatchAdds(db: DB, us: seq<Update>, i: nat)
    requires i < |us| && us[i].valid && us[i].known
    ensures var t := ApplyBatch(db, us);
            && db.nodes <= t.nodes && db.states <= t.states
            && exists r, n :: r in t.states && r.ts == us[i].ts && r.payload == us[i].payload
                              && n in t.nodes && n.id == r.node && n.host == us[i].host && n.cluster == us[i].cluster
  {
    var front, last := us[..|us| - 1], us[|us| - 1];
    BatchGrows(db, front);
    UpdateAdds(ApplyBatch(db, front), last);
    hide ApplyUpdate;
    if i == |front| {
    } else {
      BatchAdds(db, front, i);
    }
  }

  lemma {:induction false} BatchGrows(db: DB, us: seq<Update>)
    ensures db.nodes <= ApplyBatch(db, us).nodes && db.states <= ApplyBatch(db, us).states
  {
    hide ApplyUpdate;
    if us == [] {
    } else {
      BatchGrows(db, us[..|us| - 1]);
      UpdateAdds(ApplyBatch(db, us[..|us| - 1]), us[|us| - 1]);
    }
  }

  // ----- retention

  /** The row's time stamp is the maximum of its node. */
  predicate Newest(t: seq<State>, r: State) {
    forall x :: x in t && x.node == r.node ==> x.ts <= r.ts
  }

  predicate Deletable(t: seq<State>, cutoff: int, r: State) {
    r.ts < cutoff && !Newest(t, r)
  }

  /** The rows of `part` that a DELETE evaluated on the whole table `t` keeps. */
  function Kept(part: seq<State>, t: seq<State>, cutoff: int): (k: seq<State>)
    ensures forall r :: r in k <==> r in part && !Deletable(t, cutoff, r)
  {
    if part == [] then []
    else
      var last := part[|part| - 1];
      assert part == part[..|part| - 1] + [last];
      Kept(part[..|part| - 1], t, cutoff) + (if Deletable(t, cutoff, last) then [] else [last])
  }

  /** DeleteNodeStatesBefore. */
  function DeleteBefore(t: seq<State>, cutoff: int): (s: seq<State>)
    ensures forall r :: r in s <==> r in t && !Deletable(t, cutoff, r)
  {
    Kept(t, t, cutoff)
  }

  /** A row goes exactly when it is older than the cutoff and its node has a younger row; the others keep their order. */
  lemma DeletedIff(t: seq<State>, cutoff: int, r: State)
    requires r in t
    ensures r !in DeleteBefore(t, cutoff) <==> r.ts < cutoff && exists x :: x in t && x.node == r.node && x.ts > r.ts
  {
  }

  predicate IdOrder(t: seq<State>) {
    forall i, k :: 0 <= i < k < |t| ==> t[i].id < t[k].id
  }

  lemma IdOrderSnoc(front: seq<State>, last: State)
    ensures IdOrder(front + [last]) <==> IdOrder(front) && forall r :: r in front ==> r.id < last.id
  {
    if IdOrder(front + [last]) {
      forall i | 0 <= i < |front| ensures front[i].id < last.id {
        assert (front + [last])[i] == front[i] && (front + [last])[|front|] == last;
      }
      assert forall i :: 0 <= i < |front| ==> (front + [last])[i] == front[i];
    }
  }

  lemma {:induction false} KeptInOrder(part: seq<State>, t: seq<State>, cutoff: int)
    requires IdOrder(part)
    ensures IdOrder(Kept(part, t, cutoff))
  {
    hide Deletable, IdOrder;
    if part == [] {
    } else {
      var front, last := part[..|part| - 1], part[|part| - 1];
      assert part == front + [last];
      IdOrderSnoc(front, last);
      KeptInOrder(front, t, cutoff);
      KeptSnoc(front, last, t, cutoff);
      IdOrderSnoc(Kept(front, t, cutoff), last);
      assert Kept(front, t, cutoff) + [] == Kept(front, t, cutoff);
    }
  }

  /** FindNodeStatesBefore: the join drops rows whose node is missing. */
  function FindBefore(db: DB, cutoff: int): set<State> {
    set r | r in db.states && Deletable(db.states, cutoff, r) && exists n :: n in db.nodes && n.id == r.node
  }

  /** Some row of the node is a newest one. */
  lemma {:induction false} NewestExists(t: seq<State>, r: State) returns (m: State)
    requires r in t
    ensures m in t && m.node == r.node && Newest(t, m) && r.ts <= m.ts
  {
    var last, front := t[|t| - 1], t[..|t| - 1];
    assert t == front + [last];
    if r in front {
      m := NewestExists(front, r);
      if last.node == r.node && m.ts < last.ts {
        m := last;
      }
    } else {
      m := last;
      if x :| x in front && x.node == r.node && x.ts > m.ts {
        m := NewestExists(front, x);
      }
    }
  }

  /** Retention keeps exactly the same newest rows, so a node with a state row always keeps one. */
  lemma RetentionKeepsNewest(t: seq<State>, cutoff: int, r: State)
    ensures r in t && Newest(t, r) <==> r in DeleteBefore(t, cutoff) && Newest(DeleteBefore(t, cutoff), r)
    ensures (exists x :: x in t && x.node == r.node) <==> (exists x :: x in DeleteBefore(t, cutoff) && x.node == r.node)
  {
    var s := DeleteBefore(t, cutoff);
    if r in s && Newest(s, r) {
      var m := NewestExists(t, r);
      assert m in s;
    }
    if x :| x in t && x.node == r.node {
      var m := NewestExists(t, x);
      assert m in s;
    }
  }

  /** A row is newest after a retention if and only if it was before. */
  lemma NewestSame(t: seq<State>, cutoff: int, r: State)
    requires r in t
    ensures Newest(DeleteBefore(t, cutoff), r) <==> Newest(t, r)
  {
    var m := NewestExists(t, r);
    assert m in DeleteBefore(t, cutoff);
  }

  lemma KeptSnoc(part: seq<State>, x: State, t: seq<State>, cutoff: int)
    ensures Kept(part + [x], t, cutoff) == Kept(part, t, cutoff) + (if Deletable(t, cutoff, x) then [] else [x])
  {
    assert (part + [x])[..|part|] == part;
  }

  lemma {:induction false} KeptTwice(part: seq<State>, t: seq<State>, s: seq<State>, c1: int, c2: int)
    requires forall r :: r in part && !Deletable(t, c1, r) ==> (Newest(s, r) <==> Newest(t, r))
    ensures Kept(Kept(part, t, c1), s, c2) == Kept(part, t, if c1 < c2 then c2 else c1)
  {
    hide Newest, Kept;
    if part == [] {
      KeptNone(t, c1);
      KeptNone(s, c2);
      KeptNone(t, if c1 < c2 then c2 else c1);
    } else {
      var front, last := part[..|part| - 1], part[|part| - 1];
      assert part == front + [last];
      KeptTwice(front, t, s, c1, c2);
      KeptSnoc(front, last, t, c1);
      KeptSnoc(front, last, t, if c1 < c2 then c2 else c1);
      if !Deletable(t, c1, last) {
        KeptSnoc(Kept(front, t, c1), last, s, c2);
      } else {
        assert Kept(front, t, c1) + [] == Kept(front, t, c1);
      }
    }
  }

  lemma KeptNone(t: seq<State>, cutoff: int)
    ensures Kept([], t, cutoff) == []
  {
  }

  /** Two retentions with no update between are one with the later cutoff. */
  lemma RetentionsCompose(t: seq<State>, c1: int, c2: int)
    ensures DeleteBefore(DeleteBefore(t, c1), c2) == DeleteBefore(t, if c1 < c2 then c2 else c1)
  {
    forall r | r in t ensures Newest(DeleteBefore(t, c1), r) <==> Newest(t, r) {
      NewestSame(t, c1, r);
    }
    KeptTwice(t, t, DeleteBefore(t, c1), c1, c2);
  }

  // ----- the move policy

  ghost predicate NodesExist(db: DB) {
    forall r :: r in db.states ==> exists n :: n in db.nodes && n.id == r.node
  }

  /** On one and the same table the rows found are the rows deleted, if and only if each of them has its node. */
  lemma FoundIsDeleted(db: DB, cutoff: int)
    ensures FindBefore(db, cutoff) == (set r | r in db.states && r !in DeleteBefore(db.states, cutoff)) <==>
            forall r :: r in db.states && Deletable(db.states, cutoff, r) ==>
              exists n :: n in db.nodes && n.id == r.node
  {
    var gone := set r | r in db.states && r !in DeleteBefore(db.states, cutoff);
    forall r ensures r in gone <==> r in db.states && Deletable(db.states, cutoff, r) {
    }
    forall r | r in FindBefore(db, cutoff) ensures r in gone {
    }
    if FindBefore(db, cutoff) == gone {
      forall r | r in db.states && Deletable(db.states, cutoff, r) ensures exists n :: n in db.nodes && n.id == r.node {
        assert r in FindBefore(db, cutoff);
      }
    }
  }

  /** Updates that arrive between the find and the delete: everything found is deleted, but a row is deleted
      without having been found exactly when it is old and either new itself or no longer a newest one. */
  lemma DeletedUnfound(db: DB, more: seq<State>, cutoff: int, r: State)
    requires NodesExist(db) && r in db.states + more
    ensures var t := db.states + more;
            && (r in FindBefore(db, cutoff) ==> r !in DeleteBefore(t, cutoff))
            && (r !in FindBefore(db, cutoff) && r !in DeleteBefore(t, cutoff) <==>
                r.ts < cutoff && !Newest(t, r) && (r in db.states ==> Newest(db.states, r)))
  {
    var t := db.states + more;
    if r in FindBefore(db, cutoff) {
      var x :| x in db.states && x.node == r.node && x.ts > r.ts;
      assert x in t;
    }
  }

  /** The loss is real: the only, old row of a node is not found, one update later it is deleted. */
  lemma MoveCanLoseRow(n: Node, old0: State, new0: State, cutoff: int)
    requires old0.node == new0.node == n.id && old0.ts < new0.ts && old0.ts < cutoff
    ensures var db := DB([n], [old0]);
            FindBefore(db, cutoff) == {} && DeleteBefore(db.states + [new0], cutoff) == [new0]
  {
    var t := [old0] + [new0];
    assert new0 in t && !Newest(t, old0) && Newest(t, new0);
    assert t[..1] == [old0] && [old0][..0] == [];
    assert Kept([old0], t, cutoff) == [];
  }

  // ----- runs of batches and retentions

  datatype Op = Batch(updates: seq<Update>) | Retain(cutoff: int)

  function Do(db: DB, op: Op): DB {
    match op
    case Batch(us) => ApplyBatch(db, us)
    case Retain(c) => db.(states := DeleteBefore(db.states, c))
  }

  function Run(db: DB, ops: seq<Op>): DB
    decreases |ops|
  {
    if ops == [] then db else Run(Do(db, ops[0]), ops[1..])
  }

  /** A run does its operations one after the other. */
  lemma {:induction false} RunSnoc(db: DB, ops: seq<Op>, op: Op)
    ensures Run(db, ops + [op]) == Do(Run(db, ops), op)
    decreases |ops|
  {
    hide Do;
    if ops == [] {
      assert [op][1..] == [] && [] + [op] == [op];
    } else {
      assert (ops + [op])[1..] == ops[1..] + [op];
      RunSnoc(Do(db, ops[0]), ops[1..], op);
    }
  }

  /** The same run without its retentions. */
  function WithoutRetention(ops: seq<Op>): seq<Op> {
    if ops == [] then []
    else (if ops[0].Batch? then [ops[0]] else []) + WithoutRetention(ops[1..])
  }

  /** What the status views can see of a node: the newest rows, whatever their database ids. */
  function Current(db: DB, node: int): set<(int, string)> {
    set r | r in db.states && r.node == node && Newest(db.states, r) :: (r.ts, r.payload)
  }

  ghost predicate SameView(a: DB, b: DB) {
    a.nodes == b.nodes && forall node :: Current(a, node) == Current(b, node)
  }

  /** What one appended row does to a view depends on the view alone. */
  function Seen(view: set<(int, string)>, ts: int, payload: string): set<(int, string)> {
    if exists v :: v in view && v.0 > ts then view
    else (set v | v in view && v.0 == ts) + {(ts, payload)}
  }

  lemma AppendSeen(db: DB, row: State, node: int)
    ensures Current(db.(states := db.states + [row]), node) ==
            if row.node == node then Seen(Current(db, node), row.ts, row.payload) else Current(db, node)
  {
    var t, u := db.states, db.states + [row];
    assert forall x :: x in u <==> x in t || x == row;
    forall r | r in t && r.node == node ensures Newest(u, r) <==> Newest(t, r) && (row.node == node ==> row.ts <= r.ts) {
    }
    if row.node == node {
      var view := Current(db, node);
      if !Newest(u, row) {
        var x :| x in t && x.node == node && x.ts > row.ts;
        var m := NewestExists(t, x);
        assert (m.ts, m.payload) in view;
        forall r | r in t && r.node == node && Newest(t, r) ensures row.ts <= r.ts {
        }
      } else {
        forall v | v in view ensures v.0 <= row.ts {
          var r :| r in t && r.node == node && Newest(t, r) && v == (r.ts, r.payload);
        }
      }
      assert Current(db.(states := u), node) == Seen(view, row.ts, row.payload);
    } else {
      assert Current(db.(states := u), node) == Current(db, node);
    }
  }

  lemma UpdateKeepsView(a: DB, b: DB, u: Update)
    requires SameView(a, b)
    ensures SameView(ApplyUpdate(a, u), ApplyUpdate(b, u))
  {
    hide Newest;
    var i := NodeIndex(a.nodes, u.host, u.cluster);
    if u.valid && (i != -1 || u.known) {
      var id := if i == -1 then NextNode(a.nodes) else a.nodes[i].id;
      var ra, rb := State(NextState(a.states), id, u.ts, u.payload), State(NextState(b.states), id, u.ts, u.payload);
      forall node ensures Current(ApplyUpdate(a, u), node) == Current(ApplyUpdate(b, u), node) {
        AppendSeen(a, ra, node);
        AppendSeen(b, rb, node);
        NodesDoNotMatter(a.(states := a.states + [ra]), ApplyUpdate(a, u), node);
        NodesDoNotMatter(b.(states := b.states + [rb]), ApplyUpdate(b, u), node);
      }
    } else {
      forall node ensures Current(ApplyUpdate(a, u), node) == Current(ApplyUpdate(b, u), node) {
        NodesDoNotMatter(a, ApplyUpdate(a, u), node);
        NodesDoNotMatter(b, ApplyUpdate(b, u), node);
      }
    }
  }

  lemma NodesDoNotMatter(a: DB, b: DB, node: int)
    requires a.states == b.states
    ensures Current(a, node) == Current(b, node)
  {
  }

  lemma {:induction false} BatchKeepsView(a: DB, b: DB, us: seq<Update>)
    requires SameView(a, b)
    ensures SameView(ApplyBatch(a, us), ApplyBatch(b, us))
  {
    hide SameView;
    if us == [] {
    } else {
      BatchKeepsView(a, b, us[..|us| - 1]);
      UpdateKeepsView(ApplyBatch(a, us[..|us| - 1]), ApplyBatch(b, us[..|us| - 1]), us[|us| - 1]);
    }
  }

  lemma RetainKeepsView(a: DB, b: DB, cutoff: int)
    requires SameView(a, b)
    ensures SameView(Do(a, Retain(cutoff)), b)
  {
    hide Newest;
    var c := Do(a, Retain(cutoff));
    forall node ensures Current(c, node) == Current(a, node) {
      forall r ensures r in a.states && Newest(a.states, r) <==> r in c.states && Newest(c.states, r) {
        RetentionKeepsNewest(a.states, cutoff, r);
      }
    }
  }

  /** Over every run of batches and retentions each node shows the same newest rows as in the run
      without any retention: deleting can not be noticed in the current state of a node. */
  lemma {:induction false} RetentionInvisible(a: DB, b: DB, ops: seq<Op>)
    requires SameView(a, b)
    ensures SameView(Run(a, ops), Run(b, WithoutRetention(ops)))
    decreases |ops|
  {
    hide SameView, Do;
    if ops == [] {
    } else {
      var rest := WithoutRetention(ops[1..]);
      match ops[0]
      case Batch(us) =>
        DoBatch(a, us);
        DoBatch(b, us);
        BatchKeepsView(a, b, us);
        assert ([ops[0]] + rest)[1..] == rest;
        RetentionInvisible(Do(a, ops[0]), Do(b, ops[0]), ops[1..]);
      case Retain(c) =>
        RetainKeepsView(a, b, c);
        assert [] + rest == rest;
        RetentionInvisible(Do(a, ops[0]), b, ops[1..]);
    }
  }

  lemma DoBatch(db: DB, us: seq<Update>)
    ensures Do(db, Batch(us)) == ApplyBatch(db, us)
  {
  }

  // ----- as code

  class NodeRepository {
    var nodes: seq<Node>
    var states: seq<State>

    ghost function Tables(): DB
      reads this
    {
      DB(nodes, states)
    }

    /** BatchUpdateNodeStates: one transaction, a node that can not be placed or a bad row is skipped. */
    method BatchUpdateNodeStates(updates: seq<Update>)
      modifies this
      ensures Tables() == ApplyBatch(old(Tables()), updates)
    {
      for i := 0 to |updates|
        invariant Tables() == ApplyBatch(old(Tables()), updates[..i])
      {
        var u := updates[i];
        assert updates[..i + 1][..i] == updates[..i];
        var k := NodeIndex(nodes, u.host, u.cluster);
        var id;
        if k == -1 {
          if !u.known {
            continue;
          }
          id := NextNode(nodes);
          nodes := nodes + [Node(id, u.host, u.cluster)];
        } else {
          id := nodes[k].id;
        }
        if u.valid {
          states := states + [State(NextState(states), id, u.ts, u.payload)];
        }
      }
      assert updates[..|updates|] == updates;
    }

    /** The move service: find, write row by row, delete. A row that can not be written (`bad`) is skipped and
        still deleted; a failing Close keeps all rows. */
    method Move(cutoff: int, bad: set<State>, closes: bool) returns (archived: set<State>)
      modifies this`states
      ensures archived == old(FindBefore(Tables(), cutoff)) - bad
      ensures forall r :: r in archived <==>
                && r in old(states) && r.ts < cutoff && (exists x :: x in old(states) && x.node == r.node && x.ts > r.ts)
                && (exists n :: n in nodes && n.id == r.node) && r !in bad
      ensures states == (if old(FindBefore(Tables(), cutoff)) != {} && closes then DeleteBefore(old(states), cutoff)
                         else old(states))
    {
      var found := FindBefore(DB(nodes, states), cutoff);
      archived := {};
      if found == {} {
        return;
      }
      var rest := found;
      while rest != {}
        invariant rest <= found && archived == (found - rest) - bad
        decreases rest
      {
        var row :| row in rest;
        rest := rest - {row};
        if row in bad {
          continue;
        }
        archived := archived + {row};
      }
      if !closes {
        return;
      }
      states := DeleteBefore(states, cutoff);
    }
  }
}
