// The directory tree: everything can be reached from the root, and which commands keep
// it so.

module Trees {
  import opened Bytes
  import opened Codec
  import opened Geometry
  import opened Streams
  import opened FatxFs
  import opened FileOps
  import opened Rooms
  import opened Renames
  import opened Machine

  // Going from directory d to the directory it is in, n times at most, one gets to top.
  ghost predicate Up(abs: Table, top: nat, d: nat, n: nat)
    decreases n
  {
    d == top || (n > 0 && d in abs && Up(abs, top, abs[d].dir, n - 1))
  }

  // d is top or below it.
  ghost predicate Under(abs: Table, top: nat, d: nat) {
    exists n :: Up(abs, top, d, n)
  }

  // Every node can be reached from the root directory.
  ghost predicate Rooted(abs: Table, root: nat) {
    root !in abs && forall k :: k in abs ==> Under(abs, root, abs[k].dir)
  }

  lemma UnderSelf(abs: Table, d: nat)
    ensures Under(abs, d, d)
  {
    assert Up(abs, d, d, 0);
  }

  lemma UnderNext(abs: Table, top: nat, d: nat)
    requires d in abs && Under(abs, top, abs[d].dir)
    ensures Under(abs, top, d)
  {
    var n: nat :| Up(abs, top, abs[d].dir, n);
    assert Up(abs, top, d, n + 1);
  }

  // Following a path goes down the tree.
  lemma {:induction false} LeadsDown(abs: Table, d: nat, path: Path, e: nat)
    requires Leads(abs, d, path, e)
    ensures Under(abs, d, e)
    decreases |path|
  {
    if path == [] {
      UnderSelf(abs, d);
    } else {
      var k :| Named(abs, d, path[0], k) && abs[k].attr.IsDirectory() && Leads(abs, k, path[1..], e);
      LeadsDown(abs, k, path[1..], e);
      var n: nat :| Up(abs, k, e, n);
      UpFurther(abs, k, e, n);
    }
  }

  lemma {:induction false} UpFurther(abs: Table, k: nat, e: nat, n: nat)
    requires k in abs && Up(abs, k, e, n)
    ensures Under(abs, abs[k].dir, e)
    decreases n
  {
    if e == k {
      assert Up(abs, abs[k].dir, abs[k].dir, 0);
      assert Up(abs, abs[k].dir, k, 1);
    } else {
      UpFurther(abs, k, abs[e].dir, n - 1);
      UnderNext(abs, abs[k].dir, e);
    }
  }

  // ---- changing where some nodes are ----

  // abs' has the nodes of abs but for those in gone, in the same directories but for those
  // in moved, and perhaps others.
  ghost predicate Rearranged(abs: Table, abs': Table, moved: set<nat>, gone: set<nat>) {
    && (forall k :: k in abs && k !in gone ==> k in abs')
    && (forall k :: k in abs && k in abs' && k !in moved ==> abs'[k].dir == abs[k].dir)
  }

  // Nothing on the way up is touched.
  lemma {:induction false} SameUp(abs: Table, abs': Table, root: nat, moved: set<nat>, gone: set<nat>, d: nat, n: nat)
    requires Rearranged(abs, abs', moved, gone) && Up(abs, root, d, n)
    requires forall s :: s in moved || s in gone ==> !Under(abs, s, d)
    ensures Up(abs', root, d, n)
    decreases n
  {
    if d != root {
      UnderSelf(abs, d);
      forall s | s in moved || s in gone ensures !Under(abs, s, abs[d].dir) {
        if Under(abs, s, abs[d].dir) { UnderNext(abs, s, d); }
      }
      SameUp(abs, abs', root, moved, gone, abs[d].dir, n - 1);
    }
  }

  // With the moved nodes under the root, everything is.
  lemma {:induction false} AllUp(abs: Table, abs': Table, root: nat, moved: set<nat>, gone: set<nat>, d: nat, n: nat)
    requires Rearranged(abs, abs', moved, gone) && Up(abs, root, d, n)
    requires forall s :: s in moved && s in abs' ==> Under(abs', root, abs'[s].dir)
    requires forall s :: s in gone ==> !Under(abs, s, d)
    ensures Under(abs', root, d)
    decreases n
  {
    if d == root {
      UnderSelf(abs', root);
    } else {
      UnderSelf(abs, d);
      if d in moved {
        UnderNext(abs', root, d);
      } else {
        forall s | s in gone ensures !Under(abs, s, abs[d].dir) {
          if Under(abs, s, abs[d].dir) { UnderNext(abs, s, d); }
        }
        AllUp(abs, abs', root, moved, gone, abs[d].dir, n - 1);
        UnderNext(abs', root, d);
      }
    }
  }

  // A node is not below itself.
  lemma {:induction false} NotAbove(abs: Table, root: nat, k: nat, d: nat, n: nat, m: nat)
    requires root !in abs && k in abs && Up(abs, k, abs[k].dir, m) && Under(abs, k, d)
    ensures !Up(abs, root, d, n)
    decreases n
  {
    if Up(abs, root, d, n) {
      var l: nat :| Up(abs, k, d, l);
      if d != root {
        assert Up(abs, k, abs[d].dir, if d == k then m else l - 1);
        NotAbove(abs, root, k, abs[d].dir, n - 1, m);
      }
    }
  }

  lemma NoCycle(abs: Table, root: nat, k: nat)
    requires Rooted(abs, root) && k in abs
    ensures !Under(abs, k, abs[k].dir)
  {
    if Under(abs, k, abs[k].dir) {
      var m: nat :| Up(abs, k, abs[k].dir, m);
      var n: nat :| Up(abs, root, abs[k].dir, n);
      NotAbove(abs, root, k, abs[k].dir, n, m);
    }
  }

  // Moved to d2, which is below it, kf cannot be reached any more.
  lemma {:induction false} NeverRoot(abs: Table, abs': Table, root: nat, moved: set<nat>, gone: set<nat>, kf: nat,
      d2: nat, d: nat, n: nat)
    requires Rearranged(abs, abs', moved, gone) && root !in abs && kf in abs && kf in abs' && abs'[kf].dir == d2
    requires Under(abs, kf, d2) && forall s :: s in moved && s != kf ==> !Under(abs, s, d2)
    requires Under(abs, kf, d) && Under(abs, d, d2)
    ensures !Up(abs', root, d, n)
    decreases n
  {
    if Up(abs', root, d, n) {
      var l: nat :| Up(abs, kf, d, l);
      if d == kf {
        UnderSelf(abs, d2);
        NeverRoot(abs, abs', root, moved, gone, kf, d2, d2, n - 1);
      } else if d != root {
        var m: nat :| Up(abs, d, d2, m);
        UpFurther(abs, d, d2, m);
        assert Up(abs, kf, abs[d].dir, l - 1);
        NeverRoot(abs, abs', root, moved, gone, kf, d2, abs[d].dir, n - 1);
      }
    }
  }

  lemma {:induction false} NothingUnder(abs: Table, k: nat, d: nat, n: nat)
    requires NothingIn(abs, k) && Up(abs, k, d, n)
    ensures d == k
    decreases n
  {
    if d != k { NothingUnder(abs, k, abs[d].dir, n - 1); }
  }

  lemma NothingAbove(abs: Table, k: nat, d: nat)
    requires NothingIn(abs, k) && d != k
    ensures !Under(abs, k, d)
  {
    if Under(abs, k, d) {
      var n: nat :| Up(abs, k, d, n);
      NothingUnder(abs, k, d, n);
    }
  }

  // ---- what keeps the tree ----

  // Adding nodes and changing contents keeps it; so does removing what holds nothing.
  lemma KeepsRooted(abs: Table, abs': Table, root: nat, gone: set<nat>)
    requires Rooted(abs, root) && Rearranged(abs, abs', {}, gone) && root !in abs'
    requires forall s :: s in gone ==> NothingIn(abs, s)
    requires forall k :: k in abs' && k !in abs ==> Under(abs, root, abs'[k].dir) && abs'[k].dir !in gone
    ensures Rooted(abs', root)
  {
    forall k | k in abs' ensures Under(abs', root, abs'[k].dir) {
      var d := abs'[k].dir;
      var n: nat :| Up(abs, root, d, n);
      forall s | s in gone ensures !Under(abs, s, d) {
        NothingAbove(abs, s, d);
      }
      SameUp(abs, abs', root, {}, gone, d, n);
    }
  }

  // Moving one node, something that holds nothing perhaps making way for it.
  lemma MoveKeepsRooted(abs: Table, abs': Table, root: nat, kf: nat, d2: nat, gone: set<nat>)
    requires Rooted(abs, root) && Rearranged(abs, abs', {kf}, gone) && abs'.Keys == abs.Keys - gone && kf in abs
             && kf !in gone
    requires abs'[kf].dir == d2 && Under(abs, root, d2) && d2 !in gone && forall s :: s in gone ==> NothingIn(abs, s)
    ensures Rooted(abs', root) <==> !Under(abs, kf, d2)
  {
    forall s, d | s in gone && d !in gone ensures !Under(abs, s, d) {
      NothingAbove(abs, s, d);
    }
    if Under(abs, kf, d2) {
      UnderSelf(abs, d2);
      forall n: nat ensures !Up(abs', root, d2, n) {
        NeverRoot(abs, abs', root, {kf}, gone, kf, d2, d2, n);
      }
    } else {
      var n: nat :| Up(abs, root, d2, n);
      SameUp(abs, abs', root, {kf}, gone, d2, n);
      RestUp(abs, abs', root, {kf}, gone);
    }
  }

  lemma RestUp(abs: Table, abs': Table, root: nat, moved: set<nat>, gone: set<nat>)
    requires Rooted(abs, root) && Rearranged(abs, abs', moved, gone) && abs'.Keys == abs.Keys - gone
    requires forall s :: s in gone ==> NothingIn(abs, s)
    requires forall s :: s in moved && s in abs' ==> Under(abs', root, abs'[s].dir)
    ensures Rooted(abs', root)
  {
    forall k | k in abs' ensures Under(abs', root, abs'[k].dir) {
      if k !in moved {
        var d := abs[k].dir;
        var n: nat :| Up(abs, root, d, n);
        forall s | s in gone ensures !Under(abs, s, d) {
          NothingAbove(abs, s, d);
        }
        AllUp(abs, abs', root, moved, gone, d, n);
      }
    }
  }

  // Exchanging two nodes.
  lemma ExchangeKeepsRooted(abs: Table, root: nat, kf: nat, kt: nat)
    requires Rooted(abs, root) && kf in abs && kt in abs
    ensures Rooted(ExchangedNodes(abs, kf, kt), root) <==> !Under(abs, kf, abs[kt].dir) && !Under(abs, kt, abs[kf].dir)
  {
    NoCycle(abs, root, kf);
    NoCycle(abs, root, kt);
    var abs', d1, d2 := ExchangedNodes(abs, kf, kt), abs[kf].dir, abs[kt].dir;
    if kf == kt {
      ExchangeSelf(abs, kf);
    } else if Under(abs, kf, d2) {
      UnderSelf(abs, d2);
      forall n: nat ensures !Up(abs', root, d2, n) {
        NeverRoot(abs, abs', root, {kf, kt}, {}, kf, d2, d2, n);
      }
      assert abs'[kf].dir == d2;
    } else if Under(abs, kt, d1) {
      UnderSelf(abs, d1);
      forall n: nat ensures !Up(abs', root, d1, n) {
        NeverRoot(abs, abs', root, {kf, kt}, {}, kt, d1, d1, n);
      }
      assert abs'[kt].dir == d1;
    } else {
      var n: nat :| Up(abs, root, d2, n);
      SameUp(abs, abs', root, {kf, kt}, {}, d2, n);
      var m: nat :| Up(abs, root, d1, m);
      SameUp(abs, abs', root, {kf, kt}, {}, d1, m);
      RestUp(abs, abs', root, {kf, kt}, {});
    }
  }

  // ---- commands ----

  // Moving what from names in d1 to d2, or exchanging it with what to names there, would
  // put a directory below itself.
  ghost predicate Detaches(abs: Table, d1: nat, from: seq<byte>, d2: nat, to: seq<byte>, exchange: bool) {
    || (exists k :: Named(abs, d1, from, k) && Under(abs, k, d2))
    || (exchange && exists k :: Named(abs, d2, to, k) && Under(abs, k, d1))
  }

  lemma MovedKeepsRooted(abs: Table, abs': Table, root: nat, d1: nat, from: seq<byte>, d2: nat, to: seq<byte>,
      exchange: bool)
    requires Rooted(abs, root) && UniqueNames(abs) && Under(abs, root, d2)
    requires MovedBetween(abs, abs', d1, from, d2, to, exchange) && (exchange ==> Taken(abs, d2, to))
    requires !exchange ==> forall k :: Named(abs, d2, to, k) ==> NothingIn(abs, k) && !Named(abs, d1, from, k)
    ensures Rooted(abs', root) <==> !Detaches(abs, d1, from, d2, to, exchange)
  {
    hide Under, Rooted, UniqueNames, NothingIn;
    var taken := Taken(abs, d2, to);
    var kf, kt :| Named(abs, d1, from, kf) && (taken ==> Named(abs, d2, to, kt))
        && Renamed(abs, abs', kf, kt, d2, to, taken, exchange);
    assert forall k :: Named(abs, d1, from, k) ==> k == kf by { OneName(abs, d1, from, kf); }
    if !taken {
      MoveKeepsRooted(abs, abs', root, kf, d2, {});
    } else {
      assert forall k :: Named(abs, d2, to, k) ==> k == kt by { OneName(abs, d2, to, kt); }
      if exchange {
        ExchangeKeepsRooted(abs, root, kf, kt);
      } else {
        assert d2 != kt by { HoldsNothing(abs, kt, kt); }
        MoveKeepsRooted(abs, abs', root, kf, d2, {kt});
      }
    }
  }

  lemma HoldsNothing(abs: Table, k: nat, j: nat)
    requires NothingIn(abs, k) && j in abs
    ensures abs[j].dir != k
  {
  }

  lemma OneName(abs: Table, d: nat, name: seq<byte>, k: nat)
    requires UniqueNames(abs) && Named(abs, d, name, k)
    ensures forall j :: Named(abs, d, name, j) ==> j == k
  {
  }

  lemma MakeKeepsRooted(env: Env, abs: Table, abs': Table, reply: Reply, d: nat, name: seq<byte>, attributes: byte,
      now: Ts)
    requires env.Ok() && Rooted(abs, env.root) && Under(abs, env.root, d)
             && MakeStep(env, abs, abs', reply, d, name, attributes, now)
    ensures Rooted(abs', env.root)
  {
    hide Under, NothingIn;
    if reply == Answer(Success) {
      var c :| 2 <= c < env.n && c != env.root && c !in abs && abs' == abs[c := NewNode(env.variant, d,
          NewAttr(name, attributes, c, now), env.b)];
      KeepsRooted(abs, abs', env.root, {});
    }
  }

  // Contents changed, one node's or none.
  lemma UpdateKeepsRooted(abs: Table, abs': Table, root: nat)
    requires Rooted(abs, root) && abs'.Keys == abs.Keys && forall k :: k in abs ==> abs'[k].dir == abs[k].dir
    ensures Rooted(abs', root)
  {
    hide Under;
    KeepsRooted(abs, abs', root, {});
  }

  lemma RemoveKeepsRooted(abs: Table, root: nat, k: nat)
    requires Rooted(abs, root) && NothingIn(abs, k)
    ensures Rooted(abs - {k}, root)
  {
    hide Under;
    KeepsRooted(abs, abs - {k}, root, {k});
  }

  lemma WriteDirs(env: Env, abs: Table, abs': Table, reply: Reply, d: nat, name: seq<byte>, offset: nat,
      data: seq<byte>)
    requires env.Ok() && WriteStep(env, abs, abs', reply, d, name, offset, data)
    ensures abs'.Keys == abs.Keys && forall k :: k in abs ==> abs'[k].dir == abs[k].dir
  {
    hide Fit, ClustersFor, Splice, Times;
  }

  lemma ResizeDirs(env: Env, abs: Table, abs': Table, reply: Reply, d: nat, name: seq<byte>, size: nat)
    requires env.Ok() && ResizeStep(env, abs, abs', reply, d, name, size)
    ensures abs'.Keys == abs.Keys && forall k :: k in abs ==> abs'[k].dir == abs[k].dir
  {
    hide Fit, ClustersFor, Splice, Times;
  }

  lemma MoveStepRooted(env: Env, abs: Table, abs': Table, reply: Reply, d1: nat, from: seq<byte>, d2: nat,
      to: seq<byte>, exchange: bool, noReplace: bool)
    requires env.Ok() && Rooted(abs, env.root) && UniqueNames(abs) && Under(abs, env.root, d2)
    requires MoveStep(env, abs, abs', reply, d1, from, d2, to, exchange, noReplace)
    ensures Rooted(abs', env.root) <==> !(reply == Answer(Success) && Detaches(abs, d1, from, d2, to, exchange))
  {
    hide Under, Rooted, UniqueNames, NothingIn, Detaches, Renamed;
    if reply == Answer(Success) {
      NotItself(abs, d1, from, d2, to);
      MovedKeepsRooted(abs, abs', env.root, d1, from, d2, to, exchange);
    } else if reply == Answer(FileNotFound) && Taken(abs, d1, from) {
      var k :| Named(abs, d1, from, k) && abs' == abs - {k};
      RemoveKeepsRooted(abs, env.root, k);
    }
  }

  lemma NotItself(abs: Table, d1: nat, from: seq<byte>, d2: nat, to: seq<byte>)
    ensures d1 != d2 || from != to ==> forall k :: Named(abs, d2, to, k) ==> !Named(abs, d1, from, k)
  {
  }

  ghost predicate DetachingMove(abs: Table, root: nat, cmd: Command) {
    && cmd.Move?
    && exists d1, d2 :: && Leads(abs, root, cmd.dir, d1) && Leads(abs, root, cmd.dir2, d2)
                        && Detaches(abs, d1, cmd.name, d2, cmd.name2, cmd.exchange)
  }

  lemma MoveCommandRooted(env: Env, abs: Table, cmd: Command, abs': Table, reply: Reply, d: nat)
    requires env.Ok() && Rooted(abs, env.root) && UniqueNames(abs) && cmd.Move?
    requires Leads(abs, env.root, cmd.dir, d) && StepIn(env, abs, abs', reply, d, cmd)
    ensures Rooted(abs', env.root) <==> !(reply == Answer(Success) && DetachingMove(abs, env.root, cmd))
  {
    hide Under, Rooted, UniqueNames, Detaches, Leads, MoveStep;
    if exists d2 :: Leads(abs, env.root, cmd.dir2, d2) {
      var d2 :| Leads(abs, env.root, cmd.dir2, d2) && MoveStep(env, abs, abs', reply, d, cmd.name, d2, cmd.name2,
          cmd.exchange, cmd.noReplace);
      LeadsDown(abs, env.root, cmd.dir2, d2);
      MoveStepRooted(env, abs, abs', reply, d, cmd.name, d2, cmd.name2, cmd.exchange, cmd.noReplace);
      forall e1, e2 | Leads(abs, env.root, cmd.dir, e1) && Leads(abs, env.root, cmd.dir2, e2)
        ensures e1 == d && e2 == d2 {
        LeadsUnique(abs, env.root, cmd.dir, e1, d);
        LeadsUnique(abs, env.root, cmd.dir2, e2, d2);
      }
    }
  }

  // Every command keeps every node reachable from the env.root, but for a move or exchange
  // that puts a directory below itself, and that one never does.
  lemma StepKeepsRooted(env: Env, abs: Table, cmd: Command, abs': Table, reply: Reply)
    requires env.Ok() && Rooted(abs, env.root) && UniqueNames(abs) && Step(env, abs, cmd, abs', reply)
    ensures Rooted(abs', env.root) <==> !(reply == Answer(Success) && DetachingMove(abs, env.root, cmd))
  {
    hide Under, Rooted, UniqueNames, Detaches, Leads, MoveStep, MakeStep, WriteStep, ResizeStep, NothingIn, ReadBack;
    if exists d :: Leads(abs, env.root, cmd.dir, d) {
      var d :| Leads(abs, env.root, cmd.dir, d) && StepIn(env, abs, abs', reply, d, cmd);
      LeadsDown(abs, env.root, cmd.dir, d);
      match cmd {
        case MakeFile(_, name, now) => MakeKeepsRooted(env, abs, abs', reply, d, name, 0, now);
        case MakeDir(_, name, now) => MakeKeepsRooted(env, abs, abs', reply, d, name, ATTR_DIRECTORY, now);
        case ReadFrom(_, _, _, _) =>
        case WriteTo(_, name, offset, data) =>
          WriteDirs(env, abs, abs', reply, d, name, offset, data);
          UpdateKeepsRooted(abs, abs', env.root);
        case Resize(_, name, size) =>
          ResizeDirs(env, abs, abs', reply, d, name, size);
          UpdateKeepsRooted(abs, abs', env.root);
        case Remove(_, name) =>
          if abs' != abs {
            var k :| Named(abs, d, name, k) && NothingIn(abs, k) && abs' == abs - {k};
            RemoveKeepsRooted(abs, env.root, k);
          }
        case RemoveDir(_, name) =>
          if abs' != abs {
            var k :| Named(abs, d, name, k) && NothingIn(abs, k) && abs' == abs - {k};
            RemoveKeepsRooted(abs, env.root, k);
          }
        case Move(_, _, _, _, _, _, _) => MoveCommandRooted(env, abs, cmd, abs', reply, d);
      }
    }
  }
}
