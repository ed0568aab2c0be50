// What the commands of the machine mean for a caller: when each is carried out, what is at
// which path afterwards, and what of the rest has changed.

module Laws {
  import opened Bytes
  import opened Codec
  import opened Geometry
  import opened Streams
  import opened Layouts
  import opened FatxFs
  import opened Files
  import opened FileOps
  import opened Contents
  import opened Rooms
  import opened Renames
  import opened Machine
  import opened Trees
  import opened Slacks

  // ---- the directory of a command ----

  lemma StepAt(env: Env, abs: Table, cmd: Command, abs': Table, reply: Reply, d: nat)
    requires env.Ok() && UniqueNames(abs) && Step(env, abs, cmd, abs', reply) && Leads(abs, env.root, cmd.dir, d)
    ensures StepIn(env, abs, abs', reply, d, cmd)
  {
    hide UniqueNames, Leads, StepIn;
    var e :| Leads(abs, env.root, cmd.dir, e) && StepIn(env, abs, abs', reply, e, cmd);
    LeadsUnique(abs, env.root, cmd.dir, d, e);
  }

  lemma MoveAt(env: Env, abs: Table, cmd: Command, abs': Table, reply: Reply, d1: nat, d2: nat)
    requires env.Ok() && UniqueNames(abs) && Step(env, abs, cmd, abs', reply) && cmd.Move?
    requires Leads(abs, env.root, cmd.dir, d1) && Leads(abs, env.root, cmd.dir2, d2)
    ensures MoveStep(env, abs, abs', reply, d1, cmd.name, d2, cmd.name2, cmd.exchange, cmd.noReplace)
  {
    StepAt(env, abs, cmd, abs', reply, d1);
    hide UniqueNames, Leads, MoveStep, Step;
    var e :| Leads(abs, env.root, cmd.dir2, e) && MoveStep(env, abs, abs', reply, d1, cmd.name, e, cmd.name2,
        cmd.exchange, cmd.noReplace);
    LeadsUnique(abs, env.root, cmd.dir2, d2, e);
  }

  // ---- when a command is not run ----

  // What the caller of cmd in directory d sees to: a slot and a proper name for a new entry,
  // files where files are due, something to write below 4 GiB, and nothing lost with what is
  // removed or replaced.
  ghost predicate Callable(env: Env, abs: Table, cmd: Command, d: nat) {
    match cmd
    case MakeFile(_, name, _) => name != [] && 0 !in name && d in env.roomy
    case MakeDir(_, name, _) => name != [] && 0 !in name && d in env.roomy
    case ReadFrom(_, name, _, _) => OnlyFiles(abs, d, name)
    case WriteTo(_, name, offset, data) => 1 <= |data| < WORD - offset && OnlyFiles(abs, d, name)
    case Resize(_, name, size) => size < WORD && OnlyFiles(abs, d, name)
    case Remove(_, name) => OnlyBare(abs, d, name)
    case RemoveDir(_, _) => true
    case Move(_, _, dir2, name2, exchange, noReplace, _) =>
      name2 != [] && 0 !in name2
      && exists d2 :: && Leads(abs, env.root, dir2, d2)
                      && (exchange || noReplace || OnlyBare(abs, d2, name2))
                      && (exchange || d == d2 || d2 in env.roomy || exists k :: Named(abs, d2, name2, k))
  }

  ghost predicate OnlyFiles(abs: Table, d: nat, name: seq<byte>) {
    forall k :: Named(abs, d, name, k) ==> !abs[k].attr.IsDirectory()
  }

  ghost predicate OnlyBare(abs: Table, d: nat, name: seq<byte>) {
    forall k, j :: Named(abs, d, name, k) && j in abs ==> abs[j].dir != k
  }

  lemma NotRunMake(env: Env, abs: Table, cmd: Command, abs': Table, reply: Reply, d: nat)
    requires env.Ok() && (cmd.MakeFile? || cmd.MakeDir?) && StepIn(env, abs, abs', reply, d, cmd)
    ensures reply == NotRun <==> !Callable(env, abs, cmd, d)
    ensures reply == NotRun ==> abs' == abs
  {
    hide NewNode, Leads, Taken;
  }

  lemma NotRunFile(env: Env, abs: Table, cmd: Command, abs': Table, reply: Reply, d: nat)
    requires env.Ok() && UniqueNames(abs) && (cmd.ReadFrom? || cmd.WriteTo? || cmd.Resize?)
    requires StepIn(env, abs, abs', reply, d, cmd)
    ensures reply == NotRun <==> !Callable(env, abs, cmd, d)
    ensures reply == NotRun ==> abs' == abs
  {
    hide Leads, WriteOutcome, ResizeOutcome, ReadBack, Holds;
    forall k, total, offset, data | k in abs && cmd.WriteTo? && cmd.offset == offset && cmd.data == data
      ensures WriteOutcome(abs[k], total, offset, data, env.b).1 != NotRun {
      OutcomeReply(abs[k], total, offset, data, env.b);
    }
    forall k, total, size | k in abs && cmd.Resize? && cmd.size == size
      ensures ResizeOutcome(abs[k], total, size, env.b).1 != NotRun {
      ResizedReplies(abs[k], total, size, env.b);
    }
  }

  lemma NotRunRemove(env: Env, abs: Table, cmd: Command, abs': Table, reply: Reply, d: nat)
    requires env.Ok() && UniqueNames(abs) && (cmd.Remove? || cmd.RemoveDir?) && StepIn(env, abs, abs', reply, d, cmd)
    ensures reply == NotRun <==> !Callable(env, abs, cmd, d)
    ensures reply == NotRun ==> abs' == abs
  {
    hide Leads;
  }

  lemma NotRunMove(env: Env, abs: Table, cmd: Command, abs': Table, reply: Reply, d: nat)
    requires env.Ok() && UniqueNames(abs) && cmd.Move? && StepIn(env, abs, abs', reply, d, cmd)
    ensures reply == NotRun <==> !Callable(env, abs, cmd, d)
    ensures reply == NotRun ==> abs' == abs
  {
    hide Leads, UniqueNames, RenameStatus, MovedBetween;
    forall d2, e | Leads(abs, env.root, cmd.dir2, d2) && Leads(abs, env.root, cmd.dir2, e) ensures d2 == e {
      LeadsUnique(abs, env.root, cmd.dir2, d2, e);
    }
  }

  // A command is not run, and nothing changes, exactly if its directory is not there or its
  // caller owes a check.
  lemma NotRunExactly(env: Env, abs: Table, cmd: Command, abs': Table, reply: Reply)
    requires env.Ok() && UniqueNames(abs) && Step(env, abs, cmd, abs', reply)
    ensures reply == NotRun <==> forall d :: Leads(abs, env.root, cmd.dir, d) ==> !Callable(env, abs, cmd, d)
    ensures reply == NotRun ==> abs' == abs
  {
    hide Leads, UniqueNames, StepIn, Callable;
    if exists d :: Leads(abs, env.root, cmd.dir, d) {
      var d :| Leads(abs, env.root, cmd.dir, d);
      StepAt(env, abs, cmd, abs', reply, d);
      forall e | Leads(abs, env.root, cmd.dir, e) ensures e == d {
        LeadsUnique(abs, env.root, cmd.dir, e, d);
      }
      match cmd {
        case MakeFile(_, _, _) => NotRunMake(env, abs, cmd, abs', reply, d);
        case MakeDir(_, _, _) => NotRunMake(env, abs, cmd, abs', reply, d);
        case ReadFrom(_, _, _, _) => NotRunFile(env, abs, cmd, abs', reply, d);
        case WriteTo(_, _, _, _) => NotRunFile(env, abs, cmd, abs', reply, d);
        case Resize(_, _, _) => NotRunFile(env, abs, cmd, abs', reply, d);
        case Remove(_, _) => NotRunRemove(env, abs, cmd, abs', reply, d);
        case RemoveDir(_, _) => NotRunRemove(env, abs, cmd, abs', reply, d);
        case Move(_, _, _, _, _, _, _) => NotRunMove(env, abs, cmd, abs', reply, d);
      }
    }
  }

  // ---- paths in a changed table ----

  lemma {:induction false} LeadsFewer(abs: Table, abs': Table, d: nat, path: Path, e: nat)
    requires Leads(abs', d, path, e) && forall k :: k in abs' ==> k in abs && abs'[k] == abs[k]
    ensures Leads(abs, d, path, e)
    decreases |path|
  {
    if path != [] {
      var k :| Named(abs', d, path[0], k) && abs'[k].attr.IsDirectory() && Leads(abs', k, path[1..], e);
      LeadsFewer(abs, abs', k, path[1..], e);
      assert Named(abs, d, path[0], k);
    }
  }

  // What is above directory e has stayed: the path there leads there still.
  lemma {:induction false} LeadsKept(abs: Table, abs': Table, d: nat, path: Path, e: nat)
    requires Leads(abs, d, path, e)
    requires forall k :: k in abs && Under(abs, k, e) ==>
               k in abs' && abs'[k].dir == abs[k].dir && abs'[k].attr.name == abs[k].attr.name
               && abs'[k].attr.IsDirectory() == abs[k].attr.IsDirectory()
    ensures Leads(abs', d, path, e)
    decreases |path|
  {
    hide Under;
    if path != [] {
      var k :| Named(abs, d, path[0], k) && abs[k].attr.IsDirectory() && Leads(abs, k, path[1..], e);
      LeadsDown(abs, k, path[1..], e);
      LeadsKept(abs, abs', k, path[1..], e);
      assert Named(abs', d, path[0], k);
    }
  }

  lemma LeadsMore(abs: Table, abs': Table, d: nat, path: Path, e: nat)
    requires Leads(abs, d, path, e) && forall k :: k in abs ==> k in abs' && abs'[k] == abs[k]
    ensures Leads(abs', d, path, e)
  {
    hide Under, Leads;
    LeadsKept(abs, abs', d, path, e);
  }

  lemma MoreUnique(abs: Table, abs': Table, c: nat)
    requires UniqueNames(abs) && c !in abs && c in abs' && abs' == abs[c := abs'[c]]
    requires !Taken(abs, abs'[c].dir, abs'[c].attr.name)
    ensures UniqueNames(abs')
  {
    forall d, name, j, k | Named(abs', d, name, j) && Named(abs', d, name, k) ensures j == k {
      if j != c { assert Named(abs, d, name, j); }
      if k != c { assert Named(abs, d, name, k); }
    }
  }

  // ---- removing ----

  lemma RemoveAnswers(env: Env, abs: Table, cmd: Command, abs': Table, reply: Reply, d: nat)
    requires env.Ok() && UniqueNames(abs) && (cmd.Remove? || cmd.RemoveDir?) && StepIn(env, abs, abs', reply, d, cmd)
    requires reply != NotRun
    ensures reply == Answer(Success) <==>
            exists k :: && Named(abs, d, cmd.name, k) && (forall j :: j in abs ==> abs[j].dir != k)
                        && (cmd.RemoveDir? ==> abs[k].attr.IsDirectory())
    ensures reply == Answer(FileNotFound) <==>
            forall k :: Named(abs, d, cmd.name, k) ==> cmd.RemoveDir? && !abs[k].attr.IsDirectory()
    ensures reply == Answer(EndOfDir) || reply == Answer(FileNotFound) || reply == Answer(Success)
    ensures if reply == Answer(Success) then exists k :: Named(abs, d, cmd.name, k) && abs' == abs - {k}
            else abs' == abs
  {
  }

  lemma GoneFromPath(abs: Table, root: nat, dir: Path, name: seq<byte>, d: nat, k: nat)
    requires UniqueNames(abs) && Leads(abs, root, dir, d) && Named(abs, d, name, k)
    ensures forall j :: !Located(abs - {k}, root, dir, name, j)
  {
    hide Leads, Named, UniqueNames;
    forall j ensures !Located(abs - {k}, root, dir, name, j) {
      if Located(abs - {k}, root, dir, name, j) {
        var e :| Leads(abs - {k}, root, dir, e) && Named(abs - {k}, e, name, j);
        LeadsFewer(abs, abs - {k}, root, dir, e);
        NamedFewer(abs, k, e, name, j);
        LeadsUnique(abs, root, dir, d, e);
        NamedOnce(abs, d, name, j, k);
      }
    }
  }

  lemma NamedFewer(abs: Table, k: nat, d: nat, name: seq<byte>, j: nat)
    ensures Named(abs - {k}, d, name, j) <==> Named(abs, d, name, j) && j != k
  {
  }

  // When removing answers what, and that nothing is at the path after a success, one node
  // having gone that held nothing, and all others being as they were.
  lemma RemoveLaw(env: Env, abs: Table, cmd: Command, abs': Table, reply: Reply, d: nat)
    requires env.Ok() && UniqueNames(abs) && (cmd.Remove? || cmd.RemoveDir?) && Step(env, abs, cmd, abs', reply)
    requires Leads(abs, env.root, cmd.dir, d) && reply != NotRun
    ensures reply == Answer(Success) <==>
            exists k :: && Named(abs, d, cmd.name, k) && (forall j :: j in abs ==> abs[j].dir != k)
                        && (cmd.RemoveDir? ==> abs[k].attr.IsDirectory())
    ensures reply == Answer(FileNotFound) <==>
            forall k :: Named(abs, d, cmd.name, k) ==> cmd.RemoveDir? && !abs[k].attr.IsDirectory()
    ensures reply == Answer(EndOfDir) || reply == Answer(FileNotFound) || reply == Answer(Success)
    ensures reply != Answer(Success) ==> abs' == abs
    ensures reply == Answer(Success) ==>
              && (exists k :: Named(abs, d, cmd.name, k) && abs' == abs - {k})
              && (forall j :: !Located(abs', env.root, cmd.dir, cmd.name, j))
  {
    hide Step, StepIn, Leads, UniqueNames, Located;
    StepAt(env, abs, cmd, abs', reply, d);
    RemoveAnswers(env, abs, cmd, abs', reply, d);
    if reply == Answer(Success) {
      var k :| Named(abs, d, cmd.name, k) && abs' == abs - {k};
      GoneFromPath(abs, env.root, cmd.dir, cmd.name, d, k);
    }
  }

  // Where the space follows from the table it is shared between the free clusters and the
  // nodes.
  lemma SpaceStays(env: Env, abs: Table, env': Env, abs': Table)
    requires env.Ok() && env'.Ok() && SameFs(env, env') && Native(env, abs) && Native(env', abs')
    ensures env'.free + Used(abs', env.b) == env.free + Used(abs, env.b)
  {
  }

  // Removing gives back what the node held.
  lemma RemoveFrees(env: Env, abs: Table, cmd: Command, env': Env, abs': Table, k: nat)
    requires env.Ok() && env'.Ok() && SameFs(env, env') && Native(env, abs) && Native(env', abs')
    requires k in abs && abs' == abs - {k}
    ensures env'.free == env.free + if abs[k].attr.IsDirectory() then 1 else |abs[k].bytes| / env.b
  {
    hide Used, Native;
    SpaceStays(env, abs, env', abs');
    UsedWithout(abs, k, env.b);
  }

  // ---- making ----

  // A new node: empty, with the time of its making on it, and one cluster of zeros.
  ghost predicate Fresh(env: Env, n: Node, c: nat, cmd: Command)
    requires cmd.MakeFile? || cmd.MakeDir?
  {
    && n.attr.name == cmd.name && n.attr.first == c && n.attr.size == 0
    && n.attr.attributes == (if cmd.MakeDir? then ATTR_DIRECTORY else 0)
    && n.attr.modified == n.attr.created == n.attr.accessed == StoredTs(env.variant, cmd.now)
    && (Representable(env.variant, cmd.now) ==> n.attr.modified == cmd.now)
    && n.bytes == (if cmd.MakeDir? then [] else Zeros(env.b))
  }

  lemma MakeAnswers(env: Env, abs: Table, cmd: Command, abs': Table, reply: Reply, d: nat)
    requires env.Ok() && (cmd.MakeFile? || cmd.MakeDir?) && StepIn(env, abs, abs', reply, d, cmd) && reply != NotRun
    ensures reply == Answer(Success) <==>
            |cmd.name| < MAX_NAME && env.free > 0 && forall k :: !Named(abs, d, cmd.name, k)
    ensures reply != Answer(Success) ==> reply == Answer(Error) && abs' == abs
    ensures reply == Answer(Success) ==>
              exists c :: && 2 <= c < env.n && c != env.root && c !in abs && c in abs' && abs' == abs[c := abs'[c]]
                          && abs'[c].dir == d && Fresh(env, abs'[c], c, cmd)
  {
    hide Leads, NewNode, Fresh;
    if reply == Answer(Success) {
      var attributes := if cmd.MakeDir? then ATTR_DIRECTORY else 0;
      var c :| 2 <= c < env.n && c != env.root && c !in abs && abs' == abs[c := NewNode(env.variant, d,
          NewAttr(cmd.name, attributes, c, cmd.now), env.b)];
      MadeFresh(env, d, c, cmd);
    }
  }

  lemma MadeAtPath(abs: Table, abs': Table, root: nat, dir: Path, name: seq<byte>, d: nat, c: nat)
    requires UniqueNames(abs) && Leads(abs, root, dir, d) && c !in abs && c in abs' && abs' == abs[c := abs'[c]]
    requires abs'[c].dir == d && abs'[c].attr.name == name && !Taken(abs, d, name)
    ensures Named(abs', d, name, c) && abs' - {c} == abs && UniqueNames(abs') && Leads(abs', root, dir, d)
    ensures forall j :: Located(abs', root, dir, name, j) <==> j == c
  {
    hide Leads, UniqueNames;
    MoreUnique(abs, abs', c);
    LeadsMore(abs, abs', root, dir, d);
    forall j ensures Located(abs', root, dir, name, j) <==> j == c {
      LocatedOnce(abs', root, dir, name, d, c, j);
    }
    assert abs' - {c} == abs;
  }

  // When making answers what, and that after a success exactly one node is at the path, new
  // and empty, all others being as they were.
  lemma MakeLaw(env: Env, abs: Table, cmd: Command, abs': Table, reply: Reply, d: nat)
    requires env.Ok() && UniqueNames(abs) && (cmd.MakeFile? || cmd.MakeDir?) && Step(env, abs, cmd, abs', reply)
    requires Leads(abs, env.root, cmd.dir, d) && reply != NotRun
    ensures reply == Answer(Success) <==>
            |cmd.name| < MAX_NAME && env.free > 0 && forall k :: !Named(abs, d, cmd.name, k)
    ensures reply != Answer(Success) ==> reply == Answer(Error) && abs' == abs
    ensures reply == Answer(Success) ==>
              exists c :: && 2 <= c < env.n && c != env.root && c !in abs && c in abs' && abs' - {c} == abs
                          && Fresh(env, abs'[c], c, cmd) && Named(abs', d, cmd.name, c)
                          && Leads(abs', env.root, cmd.dir, d)
                          && (forall j :: Located(abs', env.root, cmd.dir, cmd.name, j) <==> j == c)
  {
    hide Step, StepIn, Leads, UniqueNames, Located;
    StepAt(env, abs, cmd, abs', reply, d);
    MakeAnswers(env, abs, cmd, abs', reply, d);
    if reply == Answer(Success) {
      var c :| && 2 <= c < env.n && c != env.root && c !in abs && c in abs' && abs' == abs[c := abs'[c]]
               && abs'[c].dir == d && Fresh(env, abs'[c], c, cmd);
      MadeAtPath(abs, abs', env.root, cmd.dir, cmd.name, d, c);
    }
  }

  lemma LocatedOnce(abs: Table, root: nat, dir: Path, name: seq<byte>, d: nat, k: nat, j: nat)
    requires UniqueNames(abs) && Leads(abs, root, dir, d) && Named(abs, d, name, k)
    ensures Located(abs, root, dir, name, j) <==> j == k
  {
    hide Leads, Named, UniqueNames;
    if Located(abs, root, dir, name, j) {
      var e :| Leads(abs, root, dir, e) && Named(abs, e, name, j);
      LeadsUnique(abs, root, dir, d, e);
      NamedOnce(abs, d, name, j, k);
    }
  }

  lemma MadeFresh(env: Env, d: nat, c: nat, cmd: Command)
    requires (cmd.MakeFile? || cmd.MakeDir?) && c < WORD
    ensures var attributes := if cmd.MakeDir? then ATTR_DIRECTORY else 0;
      var n := NewNode(env.variant, d, NewAttr(cmd.name, attributes, c, cmd.now), env.b);
      n.dir == d && Fresh(env, n, c, cmd)
  {
    hide StoredTs, Representable;
    StoredIffRepresentable(env.variant, cmd.now);
  }

  // Making takes one cluster.
  lemma MakeTakes(env: Env, abs: Table, env': Env, abs': Table, c: nat, cmd: Command)
    requires env.Ok() && env'.Ok() && SameFs(env, env') && Native(env, abs) && Native(env', abs')
    requires (cmd.MakeFile? || cmd.MakeDir?) && c !in abs && c in abs' && abs' - {c} == abs
    requires Fresh(env, abs'[c], c, cmd)
    ensures env.free == env'.free + 1
  {
    hide Used, Native;
    SpaceStays(env, abs, env', abs');
    UsedWithout(abs', c, env.b);
    assert Holds(abs'[c], env.b) == 1;
  }

  // ---- reading ----

  lemma ReadAnswers(env: Env, abs: Table, cmd: Command, abs': Table, reply: Reply, d: nat)
    requires env.Ok() && UniqueNames(abs) && cmd.ReadFrom? && StepIn(env, abs, abs', reply, d, cmd) && reply != NotRun
    ensures abs' == abs
    ensures reply == Answer(FileNotFound) <==> forall k :: !Named(abs, d, cmd.name, k)
    ensures reply != Answer(FileNotFound) ==>
              exists k :: Named(abs, d, cmd.name, k) && reply == Data(ReadBack(abs[k], cmd.offset, cmd.size))
  {
    hide ReadBack;
  }

  lemma ReadBackSlice(n: Node, offset: nat, size: nat)
    ensures var bytes := ReadBack(n, offset, size);
      && |bytes| == (if offset < n.attr.size then Min(size, n.attr.size - offset) else 0)
      && forall i :: 0 <= i < |bytes| ==> bytes[i] == Content(n)[offset + i]
  {
  }

  // Reading gives the bytes of the content from the offset on, as many as were asked for and
  // as there are, if a file is at the path.
  lemma ReadLaw(env: Env, abs: Table, cmd: Command, abs': Table, reply: Reply, d: nat)
    requires env.Ok() && UniqueNames(abs) && cmd.ReadFrom? && Step(env, abs, cmd, abs', reply)
    requires Leads(abs, env.root, cmd.dir, d) && reply != NotRun
    ensures abs' == abs
    ensures reply == Answer(FileNotFound) <==> forall k :: !Named(abs, d, cmd.name, k)
    ensures reply != Answer(FileNotFound) ==>
              && reply.Data?
              && exists k :: && Named(abs, d, cmd.name, k)
                             && |reply.bytes| == (if cmd.offset < abs[k].attr.size
                                                  then Min(cmd.size, abs[k].attr.size - cmd.offset) else 0)
                             && forall i :: 0 <= i < |reply.bytes| ==>
                                  reply.bytes[i] == Content(abs[k])[cmd.offset + i]
  {
    hide Step, StepIn, Leads, UniqueNames, ReadBack, Content;
    StepAt(env, abs, cmd, abs', reply, d);
    ReadAnswers(env, abs, cmd, abs', reply, d);
    if reply != Answer(FileNotFound) {
      var k :| Named(abs, d, cmd.name, k) && reply == Data(ReadBack(abs[k], cmd.offset, cmd.size));
      ReadBackSlice(abs[k], cmd.offset, cmd.size);
    }
  }

  // ---- writing and resizing ----

  // Of a table one node has changed, and of that the size and the bytes.
  ghost predicate FileChanged(abs: Table, abs': Table, k: nat) {
    && k in abs && k in abs' && abs' == abs[k := abs'[k]] && abs'[k].dir == abs[k].dir
    && abs'[k].attr == abs[k].attr.(size := abs'[k].attr.size)
  }

  lemma FileCommandLaw(env: Env, abs: Table, cmd: Command, abs': Table, reply: Reply, d: nat)
    requires env.Ok() && UniqueNames(abs) && (cmd.WriteTo? || cmd.Resize?)
    requires StepIn(env, abs, abs', reply, d, cmd) && reply != NotRun
    ensures reply == Answer(FileNotFound) <==> forall k :: !Named(abs, d, cmd.name, k)
    ensures reply == Answer(FileNotFound) ==> abs' == abs
    ensures reply != Answer(FileNotFound) ==>
              exists k :: && Named(abs, d, cmd.name, k) && k in abs && !abs[k].attr.IsDirectory()
                          && (cmd.WriteTo? ==> Wrote(env, abs, abs', reply, k, cmd.offset, cmd.data))
                          && (cmd.Resize? ==> Resized(env, abs, abs', reply, k, cmd.size))
  {
    hide WriteOutcome, ResizeOutcome, Holds;
    forall k, total, offset, data | k in abs && cmd.WriteTo? && cmd.offset == offset && cmd.data == data
      ensures WriteOutcome(abs[k], total, offset, data, env.b).1 != Answer(FileNotFound) {
      OutcomeReply(abs[k], total, offset, data, env.b);
    }
    forall k, total, size | k in abs && cmd.Resize? && cmd.size == size
      ensures ResizeOutcome(abs[k], total, size, env.b).1 != Answer(FileNotFound) {
      ResizedReplies(abs[k], total, size, env.b);
    }
  }

  // Behind offset the file has as much of data as there is space for, and before it and
  // behind data what it had.
  predicate Has(n: Node, n': Node, offset: nat, data: seq<byte>) {
    && (forall j :: 0 <= j < |data| && offset + j < |n'.bytes| ==> n'.bytes[offset + j] == data[j])
    && (forall i :: 0 <= i < n.attr.size && i < |n.bytes| && i < |n'.bytes| && (i < offset || offset + |data| <= i) ==>
          n'.bytes[i] == n.bytes[i])
  }

  lemma LaidHas(n: Node, offset: nat, data: seq<byte>, len: nat)
    requires Sized(n) && |n.bytes| <= len && offset + |data| <= len
    ensures Has(n, n.(bytes := Splice(Fit(n.bytes, len), offset, data)), offset, data)
  {
  }

  lemma GapHas(n: Node, offset: nat, data: seq<byte>, b: nat, m: Node)
    requires b > 0 && Sized(n) && offset + 1 < WORD && Has(GapClosed(n, offset, b), m, offset, data)
    ensures Has(n, m, offset, data)
  {
    hide Times, ClustersFor;
    assert offset + 1 <= Times(ClustersFor(offset + 1, b), b);
    var g := GapClosed(n, offset, b);
    forall i | 0 <= i < n.attr.size && i < |n.bytes| && i < |m.bytes| && (i < offset || offset + |data| <= i)
      ensures m.bytes[i] == n.bytes[i] {
      assert i < |g.bytes| && g.bytes[i] == n.bytes[i];
    }
  }

  lemma WrittenHas(n: Node, offset: nat, data: seq<byte>, b: nat)
    requires b > 0 && Sized(n) && data != [] && offset + |data| < WORD
    ensures var n', need := WrittenNode(n, offset, data, b), Times(ClustersFor(offset + |data|, b), b);
      && Has(n, n', offset, data) && offset + |data| <= |n'.bytes| && n'.attr.size == Max(n.attr.size, offset + |data|)
      && |n'.bytes| == (if offset > n.attr.size then need else Max(|n.bytes|, need))
  {
    hide Times, ClustersFor, Has, Splice, Fit;
    var m, need := GapClosed(n, offset, b), Times(ClustersFor(offset + |data|, b), b);
    assert offset + |data| <= need && offset + 1 <= Times(ClustersFor(offset + 1, b), b);
    ClustersForMonotone(offset + 1, offset + |data|, b);
    TimesGrows(ClustersFor(offset + 1, b), ClustersFor(offset + |data|, b), b);
    LaidHas(m, offset, data, Max(|m.bytes|, need));
    HasBytes(m, m.(bytes := Splice(Fit(m.bytes, Max(|m.bytes|, need)), offset, data)), Laid(m, offset, data, b), offset,
             data);
    GapHas(n, offset, data, b, Laid(m, offset, data, b));
  }

  lemma HasBytes(n: Node, m: Node, m': Node, offset: nat, data: seq<byte>)
    requires Has(n, m, offset, data) && m'.bytes == m.bytes
    ensures Has(n, m', offset, data)
  {
  }

  // Writing to a file whose clusters and the free ones are total together: everything is
  // written, and the size is what it was or the end of the data, exactly if the clusters up
  // to that end are there.
  lemma OutcomeFull(n: Node, total: nat, offset: nat, data: seq<byte>, b: nat)
    requires b > 0 && Sized(n) && |n.bytes| <= Times(total, b) && data != [] && offset + |data| < WORD
    requires ClustersFor(offset + |data|, b) <= total
    ensures var (n', reply), need := WriteOutcome(n, total, offset, data, b), Times(ClustersFor(offset + |data|, b), b);
      && reply == Count(|data|) && Has(n, n', offset, data) && offset + |data| <= |n'.bytes|
      && n'.attr.size == Max(n.attr.size, offset + |data|)
      && |n'.bytes| == (if offset > n.attr.size then need else Max(|n.bytes|, need))
  {
    hide Times, ClustersFor, Has, Splice, Fit, WrittenNode;
    WrittenHas(n, offset, data, b);
  }

  // Otherwise the file gets all there is, and as much of the data as goes there.  The answer
  // is an error, or 0 where the data begin at the end of a file that fills its clusters and
  // there is no other.
  lemma OutcomeShort(n: Node, total: nat, offset: nat, data: seq<byte>, b: nat)
    requires b > 0 && Sized(n) && |n.bytes| <= Times(total, b) && data != [] && offset + |data| < WORD
    requires ClustersFor(offset + |data|, b) > total
    ensures var (n', reply) := WriteOutcome(n, total, offset, data, b);
      && reply == (if offset == n.attr.size == Times(total, b) then Count(0) else Answer(Error))
      && Has(n, n', offset, data) && |n'.bytes| == Times(total, b)
      && n'.attr.size == if offset > n.attr.size && offset < Times(total, b) then offset + 1 else n.attr.size
  {
    hide Times, ClustersFor, Has, Splice, Fit;
    var room, m := Times(total, b), GapClosed(n, offset, b);
    RoomIsClusters(total, b);
    NeedsMore(offset + 1, total, b);
    NeedsMore(offset + |data|, total, b);
    if offset < room {
      var count := Min(|data|, room - offset);
      GapFits(n, total, offset, b);
      LaidHas(m, offset, data[..count], room);
      HasPart(m, m.(bytes := Splice(Fit(m.bytes, room), offset, data[..count])), offset, data, count);
      GapHas(n, offset, data, b, m.(bytes := Splice(Fit(m.bytes, room), offset, data[..count])));
    } else {
      LongerHas(n, room, offset, data);
    }
  }

  lemma RoomIsClusters(total: nat, b: nat)
    ensures Times(total, b) > 0 ==> total >= 1
  {
  }

  lemma GapFits(n: Node, total: nat, offset: nat, b: nat)
    requires b > 0 && Sized(n) && |n.bytes| <= Times(total, b) && offset + 1 < WORD && offset < Times(total, b)
    ensures Sized(GapClosed(n, offset, b)) && |GapClosed(n, offset, b).bytes| <= Times(total, b)
    ensures GapClosed(n, offset, b).attr.size == if offset > n.attr.size then offset + 1 else n.attr.size
  {
    hide Times, ClustersFor;
    RoomIsClusters(total, b);
    NeedsMore(offset + 1, total, b);
    GapBounds(n, total, offset, b);
  }

  // Data that fill the file up.
  lemma HasPart(n: Node, n': Node, offset: nat, data: seq<byte>, count: nat)
    requires count <= |data| && Has(n, n', offset, data[..count]) && (count == |data| || offset + count == |n'.bytes|)
    ensures Has(n, n', offset, data)
  {
    assert forall j :: 0 <= j < count ==> data[..count][j] == data[j];
  }

  lemma LongerHas(n: Node, room: nat, offset: nat, data: seq<byte>)
    requires |n.bytes| <= room <= offset
    ensures Has(n, n.(bytes := Fit(n.bytes, room)), offset, data)
  {
  }

  // A file after a write, and the answer: everything written, or all the space there was used
  // up.
  ghost predicate WriteEffect(env: Env, n: Node, n': Node, offset: nat, data: seq<byte>, reply: Reply)
    requires env.Ok()
  {
    var end, total, b := offset + |data|, Holds(n, env.b) + env.free, env.b;
    && Has(n, n', offset, data)
    && if ClustersFor(end, b) <= total
       then
         && reply == Count(|data|) && n'.attr.size == Max(n.attr.size, end) && end <= |n'.bytes|
         && |n'.bytes| == (if offset > n.attr.size then Times(ClustersFor(end, b), b)
                           else Max(|n.bytes|, Times(ClustersFor(end, b), b)))
       else
         && reply == (if offset == n.attr.size == Times(total, b) then Count(0) else Answer(Error))
         && |n'.bytes| == Times(total, b)
         && n'.attr.size == if offset > n.attr.size && offset < Times(total, b) then offset + 1 else n.attr.size
  }

  // A file after a truncation, and the answer.
  ghost predicate ResizeEffect(env: Env, n: Node, n': Node, size: nat, reply: Reply)
    requires env.Ok()
  {
    var total, b := Holds(n, env.b) + env.free, env.b;
    && n'.bytes == Fit(n.bytes, |n'.bytes|)
    && if ClustersFor(size, b) <= total
       then reply == Answer(Success) && n'.attr.size == size && |n'.bytes| == Times(ClustersFor(size, b), b)
       else reply == Answer(Error) && n'.attr.size == n.attr.size && |n'.bytes| == Times(total, b)
  }

  lemma WroteLaw(env: Env, abs: Table, abs': Table, reply: Reply, k: nat, offset: nat, data: seq<byte>)
    requires env.Ok() && ProperTable(abs) && AllWhole(abs, env.b) && k in abs && !abs[k].attr.IsDirectory()
    requires Wrote(env, abs, abs', reply, k, offset, data) && data != [] && offset + |data| < WORD
    ensures FileChanged(abs, abs', k)
    ensures WriteEffect(env, abs[k], abs'[k], offset, data, reply)
  {
    hide WriteOutcome, Times, ClustersFor, Has, UniqueNames, AllWhole, Holds;
    var n, total := abs[k], Holds(abs[k], env.b) + env.free;
    BytesFit(abs, k, env.b, env.free);
    OutcomeIsFile(n, total, offset, data, env.b);
    if ClustersFor(offset + |data|, env.b) <= total {
      OutcomeFull(n, total, offset, data, env.b);
    } else {
      OutcomeShort(n, total, offset, data, env.b);
    }
  }

  lemma ResizedLaw(env: Env, abs: Table, abs': Table, reply: Reply, k: nat, size: nat)
    requires env.Ok() && k in abs && !abs[k].attr.IsDirectory() && size < WORD
    requires Resized(env, abs, abs', reply, k, size)
    ensures FileChanged(abs, abs', k)
    ensures ResizeEffect(env, abs[k], abs'[k], size, reply)
  {
    hide Times, ClustersFor, Holds, Fit;
  }

  // When writing answers what, and what it leaves: exactly one file is changed.
  lemma WriteLaw(env: Env, abs: Table, cmd: Command, abs': Table, reply: Reply, d: nat)
    requires env.Ok() && ProperTable(abs) && AllWhole(abs, env.b) && cmd.WriteTo? && Step(env, abs, cmd, abs', reply)
    requires Leads(abs, env.root, cmd.dir, d) && reply != NotRun
    ensures reply == Answer(FileNotFound) <==> forall k :: !Named(abs, d, cmd.name, k)
    ensures reply == Answer(FileNotFound) ==> abs' == abs
    ensures reply != Answer(FileNotFound) ==>
              exists k :: && Named(abs, d, cmd.name, k) && FileChanged(abs, abs', k)
                          && WriteEffect(env, abs[k], abs'[k], cmd.offset, cmd.data, reply)
  {
    hide Step, StepIn, Leads, ProperTable, AllWhole, WriteEffect, Wrote, FileChanged;
    ProperUnique(abs);
    StepAt(env, abs, cmd, abs', reply, d);
    NotRunFile(env, abs, cmd, abs', reply, d);
    FileCommandLaw(env, abs, cmd, abs', reply, d);
    if reply != Answer(FileNotFound) {
      var k :| Named(abs, d, cmd.name, k) && k in abs && !abs[k].attr.IsDirectory()
          && Wrote(env, abs, abs', reply, k, cmd.offset, cmd.data);
      WroteLaw(env, abs, abs', reply, k, cmd.offset, cmd.data);
    }
  }

  lemma ProperUnique(abs: Table)
    requires ProperTable(abs)
    ensures UniqueNames(abs)
  {
  }

  // The same for truncating.
  lemma ResizeLaw(env: Env, abs: Table, cmd: Command, abs': Table, reply: Reply, d: nat)
    requires env.Ok() && UniqueNames(abs) && cmd.Resize? && Step(env, abs, cmd, abs', reply)
    requires Leads(abs, env.root, cmd.dir, d) && reply != NotRun
    ensures reply == Answer(FileNotFound) <==> forall k :: !Named(abs, d, cmd.name, k)
    ensures reply == Answer(FileNotFound) ==> abs' == abs
    ensures reply != Answer(FileNotFound) ==>
              exists k :: && Named(abs, d, cmd.name, k) && FileChanged(abs, abs', k)
                          && ResizeEffect(env, abs[k], abs'[k], cmd.size, reply)
  {
    hide Step, StepIn, Leads, UniqueNames, ResizeEffect, Resized, FileChanged;
    StepAt(env, abs, cmd, abs', reply, d);
    NotRunFile(env, abs, cmd, abs', reply, d);
    FileCommandLaw(env, abs, cmd, abs', reply, d);
    if reply != Answer(FileNotFound) {
      var k :| Named(abs, d, cmd.name, k) && k in abs && !abs[k].attr.IsDirectory()
          && Resized(env, abs, abs', reply, k, cmd.size);
      ResizedLaw(env, abs, abs', reply, k, cmd.size);
    }
  }

  // A change of one file moves no entry.
  lemma ChangedPaths(abs: Table, abs': Table, k: nat)
    requires FileChanged(abs, abs', k)
    ensures forall d, name, j :: Named(abs', d, name, j) <==> Named(abs, d, name, j)
    ensures UniqueNames(abs) ==> UniqueNames(abs')
    ensures forall d, path, e :: Leads(abs', d, path, e) <==> Leads(abs, d, path, e)
  {
    hide Under, Leads;
    assert forall d, name, j :: Named(abs', d, name, j) <==> Named(abs, d, name, j);
    forall d, path, e ensures Leads(abs', d, path, e) <==> Leads(abs, d, path, e) {
      if Leads(abs, d, path, e) { LeadsKept(abs, abs', d, path, e); }
      if Leads(abs', d, path, e) { LeadsKept(abs', abs, d, path, e); }
    }
  }

  // ---- moving ----

  // k has gone to directory d under the name, and is otherwise as it was.
  ghost predicate Entered(abs: Table, abs': Table, k: nat, d: nat, name: seq<byte>) {
    k in abs && k in abs' && abs'[k] == abs[k].(dir := d, attr := abs[k].attr.(name := name))
  }

  // Of the others, those that to names in d2 are gone, and the rest is as it was.
  ghost predicate OthersMadeWay(abs: Table, abs': Table, k: nat, d2: nat, to: seq<byte>) {
    && (forall j :: j != k ==> (j in abs' <==> j in abs && !Named(abs, d2, to, j)))
    && (forall j :: j != k && j in abs' && j in abs ==> abs'[j] == abs[j])
  }

  ghost predicate OthersStayed(abs: Table, abs': Table, k1: nat, k2: nat) {
    abs'.Keys == abs.Keys && forall j :: j in abs && j in abs' && j != k1 && j != k2 ==> abs'[j] == abs[j]
  }

  // When moving answers what.  A plain move of an entry to itself removes it.
  lemma MoveAnswers(env: Env, abs: Table, abs': Table, reply: Reply, d1: nat, from: seq<byte>, d2: nat, to: seq<byte>,
      exchange: bool, noReplace: bool)
    requires env.Ok() && MoveStep(env, abs, abs', reply, d1, from, d2, to, exchange, noReplace) && reply != NotRun
    ensures reply == Answer(Success) <==>
            && |from| < MAX_NAME && |to| < MAX_NAME && !(exchange && noReplace) && Taken(abs, d1, from)
            && if Taken(abs, d2, to) then exchange || (!noReplace && (d1 != d2 || from != to))
               else !exchange && (d1 == d2 || env.free > 0)
    ensures reply == Answer(FileNotFound) <==>
            && |from| < MAX_NAME && |to| < MAX_NAME && !(exchange && noReplace)
            && (!Taken(abs, d1, from) || (d1 == d2 && from == to && !exchange && !noReplace))
    ensures reply == Answer(Success) || reply == Answer(FileNotFound) || reply == Answer(Error)
    ensures reply == Answer(Success) ==> MovedBetween(abs, abs', d1, from, d2, to, exchange)
    ensures reply == Answer(FileNotFound) && Taken(abs, d1, from) ==>
              exists k :: Named(abs, d1, from, k) && abs' == abs - {k}
    ensures reply != Answer(Success) && !(reply == Answer(FileNotFound) && Taken(abs, d1, from)) ==> abs' == abs
  {
    hide MovedBetween, Movable;
  }

  // A plain move takes the node with all it has to the new name, over what was there.
  lemma PlainEffect(abs: Table, abs': Table, d1: nat, from: seq<byte>, d2: nat, to: seq<byte>)
    requires UniqueNames(abs) && MovedBetween(abs, abs', d1, from, d2, to, false) && (d1 != d2 || from != to)
    ensures exists k :: Named(abs, d1, from, k) && Entered(abs, abs', k, d2, to) && OthersMadeWay(abs, abs', k, d2, to)
  {
    var taken := Taken(abs, d2, to);
    var kf, kt :| Named(abs, d1, from, kf) && (taken ==> Named(abs, d2, to, kt))
        && Renamed(abs, abs', kf, kt, d2, to, taken, false);
    assert forall j :: Named(abs, d2, to, j) ==> taken && j == kt;
    hide UniqueNames;
    assert Entered(abs, abs', kf, d2, to) && OthersMadeWay(abs, abs', kf, d2, to);
  }

  // An exchange gives each of two nodes the other's place.
  lemma ExchangeEffect(abs: Table, abs': Table, d1: nat, from: seq<byte>, d2: nat, to: seq<byte>)
    requires MovedBetween(abs, abs', d1, from, d2, to, true) && Taken(abs, d2, to)
    ensures exists k1, k2 ::
              && Named(abs, d1, from, k1) && Named(abs, d2, to, k2) && Entered(abs, abs', k1, d2, to)
              && Entered(abs, abs', k2, d1, from) && OthersStayed(abs, abs', k1, k2)
  {
    var kf, kt :| Named(abs, d1, from, kf) && Named(abs, d2, to, kt)
        && Renamed(abs, abs', kf, kt, d2, to, true, true);
    assert OthersStayed(abs, abs', kf, kt);
    assert Entered(abs, abs', kf, d2, to) && Entered(abs, abs', kt, d1, from);
  }

  // Names stay unique, and the old name is free after a plain move.
  lemma PlainUnique(abs: Table, abs': Table, d1: nat, from: seq<byte>, d2: nat, to: seq<byte>, k: nat)
    requires UniqueNames(abs) && Named(abs, d1, from, k) && (d1 != d2 || from != to)
    requires Entered(abs, abs', k, d2, to) && OthersMadeWay(abs, abs', k, d2, to)
    ensures UniqueNames(abs') && Named(abs', d2, to, k) && !Taken(abs', d1, from)
  {
    forall d, name, i, j | Named(abs', d, name, i) && Named(abs', d, name, j) ensures i == j {
      assert i != k ==> Named(abs, d, name, i);
      assert j != k ==> Named(abs, d, name, j);
    }
    forall j ensures !Named(abs', d1, from, j) {
      assert j != k && Named(abs', d1, from, j) ==> Named(abs, d1, from, j);
    }
  }

  lemma ExchangeUnique(abs: Table, abs': Table, d1: nat, from: seq<byte>, d2: nat, to: seq<byte>, k1: nat, k2: nat)
    requires UniqueNames(abs) && Named(abs, d1, from, k1) && Named(abs, d2, to, k2)
    requires Entered(abs, abs', k1, d2, to) && Entered(abs, abs', k2, d1, from) && OthersStayed(abs, abs', k1, k2)
    ensures UniqueNames(abs') && Named(abs', d2, to, k1) && Named(abs', d1, from, k2)
  {
    forall d, name, i, j | Named(abs', d, name, i) && Named(abs', d, name, j) ensures i == j {
      assert i != k1 && i != k2 ==> Named(abs, d, name, i);
      assert j != k1 && j != k2 ==> Named(abs, d, name, j);
    }
  }

  // Paths that do not go through what is moved or replaced lead where they led.
  lemma UnmovedPath(abs: Table, abs': Table, root: nat, path: Path, d: nat, touched: set<nat>)
    requires Leads(abs, root, path, d)
    requires forall j :: j in abs && j !in touched ==> j in abs' && abs'[j] == abs[j]
    requires forall m :: m in touched ==> !Under(abs, m, d)
    ensures Leads(abs', root, path, d)
  {
    hide Under, Leads;
    LeadsKept(abs, abs', root, path, d);
  }

  // What a move that succeeds has done, k1 and k2 being what the two names stood for.
  ghost predicate MoveEffect(abs: Table, abs': Table, cmd: Command, d1: nat, d2: nat, k1: nat, k2: nat)
    requires cmd.Move?
  {
    && Named(abs, d1, cmd.name, k1) && Entered(abs, abs', k1, d2, cmd.name2) && UniqueNames(abs')
    && if cmd.exchange
       then Named(abs, d2, cmd.name2, k2) && Entered(abs, abs', k2, d1, cmd.name) && OthersStayed(abs, abs', k1, k2)
       else OthersMadeWay(abs, abs', k1, d2, cmd.name2) && !Taken(abs', d1, cmd.name)
  }

  lemma MovedEffect(abs: Table, cmd: Command, abs': Table, d1: nat, d2: nat)
    requires UniqueNames(abs) && cmd.Move? && MovedBetween(abs, abs', d1, cmd.name, d2, cmd.name2, cmd.exchange)
    requires if cmd.exchange then Taken(abs, d2, cmd.name2) else d1 != d2 || cmd.name != cmd.name2
    ensures exists k1, k2 :: MoveEffect(abs, abs', cmd, d1, d2, k1, k2)
  {
    hide UniqueNames, MovedBetween, Entered, OthersMadeWay, OthersStayed, Taken;
    if cmd.exchange {
      ExchangeEffect(abs, abs', d1, cmd.name, d2, cmd.name2);
      var k1, k2 :| && Named(abs, d1, cmd.name, k1) && Named(abs, d2, cmd.name2, k2)
                    && Entered(abs, abs', k1, d2, cmd.name2) && Entered(abs, abs', k2, d1, cmd.name)
                    && OthersStayed(abs, abs', k1, k2);
      ExchangeUnique(abs, abs', d1, cmd.name, d2, cmd.name2, k1, k2);
      assert MoveEffect(abs, abs', cmd, d1, d2, k1, k2);
    } else {
      PlainEffect(abs, abs', d1, cmd.name, d2, cmd.name2);
      var k :| && Named(abs, d1, cmd.name, k) && Entered(abs, abs', k, d2, cmd.name2)
               && OthersMadeWay(abs, abs', k, d2, cmd.name2);
      PlainUnique(abs, abs', d1, cmd.name, d2, cmd.name2, k);
      assert MoveEffect(abs, abs', cmd, d1, d2, k, k);
    }
  }

  // When moving answers what, and what it has done then.
  lemma MoveLaw(env: Env, abs: Table, cmd: Command, abs': Table, reply: Reply, d1: nat, d2: nat)
    requires env.Ok() && UniqueNames(abs) && cmd.Move? && Step(env, abs, cmd, abs', reply) && reply != NotRun
    requires Leads(abs, env.root, cmd.dir, d1) && Leads(abs, env.root, cmd.dir2, d2)
    ensures reply == Answer(Success) <==>
            && |cmd.name| < MAX_NAME && |cmd.name2| < MAX_NAME && !(cmd.exchange && cmd.noReplace)
            && Taken(abs, d1, cmd.name)
            && if Taken(abs, d2, cmd.name2)
               then cmd.exchange || (!cmd.noReplace && (d1 != d2 || cmd.name != cmd.name2))
               else !cmd.exchange && (d1 == d2 || env.free > 0)
    ensures reply == Answer(FileNotFound) <==>
            && |cmd.name| < MAX_NAME && |cmd.name2| < MAX_NAME && !(cmd.exchange && cmd.noReplace)
            && (!Taken(abs, d1, cmd.name)
                || (d1 == d2 && cmd.name == cmd.name2 && !cmd.exchange && !cmd.noReplace))
    ensures reply == Answer(Success) || reply == Answer(FileNotFound) || reply == Answer(Error)
    ensures reply == Answer(Success) ==> exists k1, k2 :: MoveEffect(abs, abs', cmd, d1, d2, k1, k2)
    ensures reply == Answer(FileNotFound) && Taken(abs, d1, cmd.name) ==>
              exists k :: Named(abs, d1, cmd.name, k) && abs' == abs - {k}
    ensures reply != Answer(Success) && !(reply == Answer(FileNotFound) && Taken(abs, d1, cmd.name)) ==> abs' == abs
  {
    hide Step, StepIn, Leads, UniqueNames, MoveStep, MoveEffect, MovedBetween;
    MoveAt(env, abs, cmd, abs', reply, d1, d2);
    MoveAnswers(env, abs, abs', reply, d1, cmd.name, d2, cmd.name2, cmd.exchange, cmd.noReplace);
    if reply == Answer(Success) {
      MovedEffect(abs, cmd, abs', d1, d2);
    }
  }

  // Where no directory is moved below itself the content is at the new path afterwards, and
  // nothing, or the other node of an exchange, at the old one.
  lemma MovePaths(env: Env, abs: Table, cmd: Command, abs': Table, reply: Reply, d1: nat, d2: nat, k1: nat, k2: nat)
    requires env.Ok() && UniqueNames(abs) && Rooted(abs, env.root) && cmd.Move? && Step(env, abs, cmd, abs', reply)
    requires Leads(abs, env.root, cmd.dir, d1) && Leads(abs, env.root, cmd.dir2, d2) && reply != NotRun
    requires MoveEffect(abs, abs', cmd, d1, d2, k1, k2) && !DetachingMove(abs, env.root, cmd)
    ensures forall j :: Located(abs', env.root, cmd.dir2, cmd.name2, j) <==> j == k1
    ensures forall j :: Located(abs', env.root, cmd.dir, cmd.name, j) <==> cmd.exchange && j == k2
  {
    hide Step, StepIn, Leads, UniqueNames, Under, Rooted, Located, Entered, OthersMadeWay, OthersStayed, NothingIn;
    assert !Detaches(abs, d1, cmd.name, d2, cmd.name2, cmd.exchange);
    NoCycle(abs, env.root, k1);
    if cmd.exchange {
      NoCycle(abs, env.root, k2);
      ExchangedPaths(abs, abs', env.root, cmd, d1, d2, k1, k2);
    } else {
      MoveAt(env, abs, cmd, abs', reply, d1, d2);
      PlainPaths(abs, abs', env.root, cmd, d1, d2, k1);
    }
  }

  lemma ExchangedPaths(abs: Table, abs': Table, root: nat, cmd: Command, d1: nat, d2: nat, k1: nat, k2: nat)
    requires UniqueNames(abs) && cmd.Move? && cmd.exchange && MoveEffect(abs, abs', cmd, d1, d2, k1, k2)
    requires Leads(abs, root, cmd.dir, d1) && Leads(abs, root, cmd.dir2, d2)
    requires !Under(abs, k1, d1) && !Under(abs, k1, d2) && !Under(abs, k2, d1) && !Under(abs, k2, d2)
    ensures forall j :: Located(abs', root, cmd.dir2, cmd.name2, j) <==> j == k1
    ensures forall j :: Located(abs', root, cmd.dir, cmd.name, j) <==> j == k2
  {
    hide Leads, UniqueNames, Under, Located;
    UnmovedPath(abs, abs', root, cmd.dir, d1, {k1, k2});
    UnmovedPath(abs, abs', root, cmd.dir2, d2, {k1, k2});
    forall j
      ensures Located(abs', root, cmd.dir2, cmd.name2, j) <==> j == k1
      ensures Located(abs', root, cmd.dir, cmd.name, j) <==> j == k2
    {
      LocatedOnce(abs', root, cmd.dir2, cmd.name2, d2, k1, j);
      LocatedOnce(abs', root, cmd.dir, cmd.name, d1, k2, j);
    }
  }

  lemma PlainPaths(abs: Table, abs': Table, root: nat, cmd: Command, d1: nat, d2: nat, k: nat)
    requires UniqueNames(abs) && cmd.Move? && !cmd.exchange && MoveEffect(abs, abs', cmd, d1, d2, k, k)
    requires Leads(abs, root, cmd.dir, d1) && Leads(abs, root, cmd.dir2, d2)
    requires !Under(abs, k, d1) && !Under(abs, k, d2) && forall j :: Named(abs, d2, cmd.name2, j) ==> NothingIn(abs, j)
    ensures forall j :: Located(abs', root, cmd.dir2, cmd.name2, j) <==> j == k
    ensures forall j :: !Located(abs', root, cmd.dir, cmd.name, j)
    ensures Leads(abs', root, cmd.dir, d1) && Leads(abs', root, cmd.dir2, d2)
  {
    hide Leads, UniqueNames, Under;
    var touched := {k} + set j | j in abs && Named(abs, d2, cmd.name2, j);
    forall m | m in touched ensures !Under(abs, m, d1) && !Under(abs, m, d2) {
      if m != k {
        NothingAbove(abs, m, d1);
        NothingAbove(abs, m, d2);
      }
    }
    UnmovedPath(abs, abs', root, cmd.dir, d1, touched);
    UnmovedPath(abs, abs', root, cmd.dir2, d2, touched);
    forall j
      ensures Located(abs', root, cmd.dir2, cmd.name2, j) <==> j == k
      ensures !Located(abs', root, cmd.dir, cmd.name, j)
    {
      LocatedOnce(abs', root, cmd.dir2, cmd.name2, d2, k, j);
      NotLocated(abs', root, cmd.dir, cmd.name, d1, j);
    }
  }

  lemma NotLocated(abs: Table, root: nat, dir: Path, name: seq<byte>, d: nat, j: nat)
    requires UniqueNames(abs) && Leads(abs, root, dir, d) && !Taken(abs, d, name)
    ensures !Located(abs, root, dir, name, j)
  {
    assert forall k :: !Named(abs, d, name, k);
    hide Leads, Named, UniqueNames;
    if Located(abs, root, dir, name, j) {
      var e :| Leads(abs, root, dir, e) && Named(abs, e, name, j);
      LeadsUnique(abs, root, dir, d, e);
    }
  }
}
