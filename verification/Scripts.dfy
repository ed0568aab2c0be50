// Scripts whose answers are known beforehand.

module Scripts {
  import opened Bytes
  import opened Codec
  import opened Geometry
  import opened Streams
  import opened Layouts
  import opened FatxFs
  import opened Files
  import opened FileOps
  import opened Contents
  import opened Spaces
  import opened Machine
  import opened Trees
  import opened Slacks
  import opened Laws
  import opened Runs

  lemma {:induction false} LeadsHome(abs: Table, d: nat, path: Path, e: nat)
    requires Leads(abs, d, path, e)
    ensures e == d || (e in abs && abs[e].attr.IsDirectory())
    decreases |path|
  {
    if path != [] {
      var k :| Named(abs, d, path[0], k) && abs[k].attr.IsDirectory() && Leads(abs, k, path[1..], e);
      LeadsHome(abs, k, path[1..], e);
    }
  }

  // A file made, written, read, removed, and looked for again.
  function FileLife(dir: Path, name: seq<byte>, now: Ts, data: seq<byte>): (script: seq<Command>)
    ensures |script| == 5
  {
    [MakeFile(dir, name, now), WriteTo(dir, name, 0, data), ReadFrom(dir, name, 0, |data|), Remove(dir, name),
     ReadFrom(dir, name, 0, |data|)]
  }

  // Making where there is room and space.
  lemma MadeThere(env: Env, abs: Table, cmd: Command, abs': Table, reply: Reply, d: nat) returns (c: nat)
    requires env.Ok() && UniqueNames(abs) && (cmd.MakeFile? || cmd.MakeDir?) && Step(env, abs, cmd, abs', reply)
    requires Leads(abs, env.root, cmd.dir, d) && ProperName(cmd.name) && d in env.roomy
    ensures reply
         == Answer(if |cmd.name| < MAX_NAME && env.free > 0 && !Taken(abs, d, cmd.name) then Success else Error)
    ensures reply == Answer(Error) ==> abs' == abs
    ensures reply == Answer(Success) ==>
              && 2 <= c < env.n && c != env.root && c !in abs && c in abs' && abs' - {c} == abs
              && Fresh(env, abs'[c], c, cmd) && Named(abs', d, cmd.name, c) && Leads(abs', env.root, cmd.dir, d)
  {
    hide Step, Leads, UniqueNames, Fresh, Located;
    NotRunExactly(env, abs, cmd, abs', reply);
    assert Callable(env, abs, cmd, d);
    MakeLaw(env, abs, cmd, abs', reply, d);
    c := 0;
    if reply == Answer(Success) {
      c :| && 2 <= c < env.n && c != env.root && c !in abs && c in abs' && abs' - {c} == abs
           && Fresh(env, abs'[c], c, cmd) && Named(abs', d, cmd.name, c) && Leads(abs', env.root, cmd.dir, d);
    }
  }

  // Writing to a file that is there.
  lemma WroteThere(env: Env, abs: Table, cmd: Command, abs': Table, reply: Reply, d: nat, k: nat)
    requires env.Ok() && ProperTable(abs) && AllWhole(abs, env.b) && cmd.WriteTo? && Step(env, abs, cmd, abs', reply)
    requires Leads(abs, env.root, cmd.dir, d) && Named(abs, d, cmd.name, k) && !abs[k].attr.IsDirectory()
    requires cmd.data != [] && cmd.offset + |cmd.data| < WORD
    ensures FileChanged(abs, abs', k) && WriteEffect(env, abs[k], abs'[k], cmd.offset, cmd.data, reply)
    ensures Leads(abs', env.root, cmd.dir, d) && Named(abs', d, cmd.name, k) && abs' - {k} == abs - {k}
  {
    hide Step, Leads, ProperTable, AllWhole, WriteEffect;
    ProperUnique(abs);
    assert forall j :: Named(abs, d, cmd.name, j) ==> j == k;
    NotRunExactly(env, abs, cmd, abs', reply);
    assert Callable(env, abs, cmd, d);
    hide UniqueNames;
    WriteLaw(env, abs, cmd, abs', reply, d);
    ChangedPaths(abs, abs', k);
  }

  // Reading a file that is there.
  lemma ReadThere(env: Env, abs: Table, cmd: Command, abs': Table, reply: Reply, d: nat, k: nat)
    requires env.Ok() && UniqueNames(abs) && cmd.ReadFrom? && Step(env, abs, cmd, abs', reply)
    requires Leads(abs, env.root, cmd.dir, d) && Named(abs, d, cmd.name, k) && !abs[k].attr.IsDirectory()
    ensures abs' == abs && reply.Data?
    ensures |reply.bytes| == if cmd.offset < abs[k].attr.size then Min(cmd.size, abs[k].attr.size - cmd.offset) else 0
    ensures forall i :: 0 <= i < |reply.bytes| ==> reply.bytes[i] == Content(abs[k])[cmd.offset + i]
  {
    hide Step, Leads, Content;
    assert forall j :: Named(abs, d, cmd.name, j) ==> j == k;
    hide UniqueNames;
    NotRunExactly(env, abs, cmd, abs', reply);
    assert Callable(env, abs, cmd, d);
    ReadLaw(env, abs, cmd, abs', reply, d);
  }

  // Looking for a file that is not there.
  lemma NothingThere(env: Env, abs: Table, cmd: Command, abs': Table, reply: Reply, d: nat)
    requires env.Ok() && ProperTable(abs) && AllWhole(abs, env.b) && Step(env, abs, cmd, abs', reply)
    requires cmd.ReadFrom? || cmd.Remove? || (cmd.WriteTo? && cmd.data != [] && cmd.offset + |cmd.data| < WORD)
    requires Leads(abs, env.root, cmd.dir, d) && !Taken(abs, d, cmd.name)
    ensures reply == Answer(FileNotFound) && abs' == abs
  {
    hide Step, Leads, ProperTable, AllWhole, WriteEffect, FileChanged;
    ProperUnique(abs);
    assert forall j :: !Named(abs, d, cmd.name, j);
    hide UniqueNames;
    NotRunExactly(env, abs, cmd, abs', reply);
    assert Callable(env, abs, cmd, d);
    match cmd {
      case ReadFrom(_, _, _, _) => ReadLaw(env, abs, cmd, abs', reply, d);
      case Remove(_, _) => RemoveLaw(env, abs, cmd, abs', reply, d);
      case WriteTo(_, _, _, _) => WriteLaw(env, abs, cmd, abs', reply, d);
    }
  }

  // Removing what is there and holds nothing.
  lemma RemovedThere(env: Env, abs: Table, cmd: Command, abs': Table, reply: Reply, d: nat, k: nat)
    requires env.Ok() && UniqueNames(abs) && cmd.Remove? && Step(env, abs, cmd, abs', reply)
    requires Leads(abs, env.root, cmd.dir, d) && Named(abs, d, cmd.name, k)
    requires forall j :: j in abs ==> abs[j].dir != k
    ensures reply == Answer(Success) && abs' == abs - {k}
  {
    hide Step, Leads;
    assert forall j :: Named(abs, d, cmd.name, j) ==> j == k;
    hide UniqueNames;
    NotRunExactly(env, abs, cmd, abs', reply);
    assert Callable(env, abs, cmd, d);
    RemoveLaw(env, abs, cmd, abs', reply, d);
  }

  // The first write to a new file, from its beginning, and what is read then.
  lemma FirstWrite(env: Env, n: Node, n': Node, data: seq<byte>, reply: Reply)
    requires env.Ok() && n.attr.size == 0 && n.bytes == Zeros(env.b) && !n.attr.IsDirectory() && data != []
    requires WriteEffect(env, n, n', 0, data, reply)
    ensures var fits := ClustersFor(|data|, env.b) <= env.free + 1;
      && reply == (if fits then Count(|data|) else Answer(Error)) && n'.attr.size == (if fits then |data| else 0)
      && (fits ==> Content(n') == data && |n'.bytes| == Times(ClustersFor(|data|, env.b), env.b))
  {
    hide Times, ClustersFor;
    assert Holds(n, env.b) == 1;
    TimesOrder(1, env.free + 1, env.b);
    TimesOrder(1, ClustersFor(|data|, env.b), env.b);
    OneTimes(env.b);
  }

  lemma OneTimes(b: nat)
    ensures Times(1, b) == b
  {
  }

  lemma RunStep(envs: seq<Env>, script: seq<Command>, trace: seq<Table>, replies: seq<Reply>, i: nat)
    requires RunOf(envs, script, trace, replies) && i < |replies| && WellMade(trace, envs[0].b)
    ensures envs[i].Ok() && SameFs(envs[0], envs[i]) && Step(envs[i], trace[i], script[i], trace[i + 1], replies[i])
    ensures ProperTable(trace[i]) && AllWhole(trace[i], envs[i].b) && UniqueNames(trace[i])
  {
    hide Step, UniqueNames, AllWhole;
  }

  lemma FirstSpace(envs: seq<Env>, trace: seq<Table>, i: nat)
    requires NativeRun(envs, trace) && i < |envs| && |envs| == |trace|
    ensures envs[i].Ok() && Native(envs[i], trace[i])
  {
    hide Native;
  }

  // The run of a file's life on a full volume.
  lemma NoLife(envs: seq<Env>, trace: seq<Table>, replies: seq<Reply>, dir: Path, name: seq<byte>, now: Ts,
      data: seq<byte>, d: nat)
    requires RunOf(envs, FileLife(dir, name, now, data), trace, replies) && |replies| == 5
    requires WellMade(trace, envs[0].b) && ProperName(name) && 1 <= |data| < WORD
    requires Leads(trace[0], envs[0].root, dir, d) && d in envs[0].roomy && !Taken(trace[0], d, name)
    requires envs[0].free == 0 || |name| >= MAX_NAME
    ensures trace[5] == trace[0]
    ensures replies == [Answer(Error), Answer(FileNotFound), Answer(FileNotFound), Answer(FileNotFound),
                        Answer(FileNotFound)]
  {
    hide Step, Leads, UniqueNames, AllWhole, ProperTable, RunOf, WellMade, Taken;
    var script := FileLife(dir, name, now, data);
    RunShapeOf(envs, script, trace, replies);
    RunStep(envs, script, trace, replies, 0);
    var c := MadeThere(envs[0], trace[0], script[0], trace[1], replies[0], d);
    for i := 1 to 5
      invariant trace[i] == trace[0] && replies[0] == Answer(Error)
      invariant forall j :: 1 <= j < i ==> replies[j] == Answer(FileNotFound)
    {
      RunStep(envs, script, trace, replies, i);
      NothingThere(envs[i], trace[i], script[i], trace[i + 1], replies[i], d);
    }
  }

  // The life of a file, answer by answer, whatever the space: all of it is read back, or, if
  // it does not fit, nothing; and it leaves nothing behind, not in the table, not of the
  // space.
  lemma FileLifeRun(envs: seq<Env>, trace: seq<Table>, replies: seq<Reply>, dir: Path, name: seq<byte>, now: Ts,
      data: seq<byte>, d: nat)
    requires RunOf(envs, FileLife(dir, name, now, data), trace, replies) && |replies| == 5
    requires WellMade(trace, envs[0].b) && NativeRun(envs, trace) && Homed(trace[0], envs[0].root)
    requires ProperName(name) && |name| < MAX_NAME && 1 <= |data| < WORD
    requires Leads(trace[0], envs[0].root, dir, d) && d in envs[0].roomy && !Taken(trace[0], d, name)
    ensures trace[5] == trace[0] && envs[5].free == envs[0].free
    ensures replies
         == if envs[0].free == 0
            then [Answer(Error), Answer(FileNotFound), Answer(FileNotFound), Answer(FileNotFound), Answer(FileNotFound)]
            else if ClustersFor(|data|, envs[0].b) <= envs[0].free
            then [Answer(Success), Count(|data|), Data(data), Answer(Success), Answer(FileNotFound)]
            else [Answer(Success), Answer(Error), Data([]), Answer(Success), Answer(FileNotFound)]
  {
    hide Step, Leads, UniqueNames, AllWhole, ProperTable, RunOf, WellMade, Taken, NativeRun, Native, WriteEffect,
         Content, Homed, Used;
    RunShapeOf(envs, FileLife(dir, name, now, data), trace, replies);
    if envs[0].free == 0 {
      NoLife(envs, trace, replies, dir, name, now, data, d);
    } else {
      Life(envs, trace, replies, dir, name, now, data, d);
    }
    FirstSpace(envs, trace, 0);
    FirstSpace(envs, trace, 5);
    SpaceStays(envs[0], trace[0], envs[5], trace[5]);
  }

  lemma RunShapeOf(envs: seq<Env>, script: seq<Command>, trace: seq<Table>, replies: seq<Reply>)
    requires RunOf(envs, script, trace, replies)
    ensures |envs| == |trace| == |replies| + 1 && |replies| <= |script|
    ensures forall i :: 0 <= i < |envs| ==> envs[i].Ok() && SameFs(envs[0], envs[i])
  {
    hide Step;
  }

  // Its first half.
  lemma Grown(envs: seq<Env>, script: seq<Command>, trace: seq<Table>, replies: seq<Reply>, d: nat) returns (c: nat)
    requires RunOf(envs, script, trace, replies) && |replies| >= 2 && script[0].MakeFile? && script[1].WriteTo?
    requires WellMade(trace, envs[0].b) && NativeRun(envs, trace) && Homed(trace[0], envs[0].root)
    requires script[1].dir == script[0].dir && script[1].name == script[0].name && script[1].offset == 0
    requires ProperName(script[0].name) && |script[0].name| < MAX_NAME && 1 <= |script[1].data| < WORD
    requires Leads(trace[0], envs[0].root, script[0].dir, d) && d in envs[0].roomy
    requires !Taken(trace[0], d, script[0].name) && envs[0].free > 0
    ensures |envs| == |trace| == |replies| + 1 && replies[0] == Answer(Success)
    ensures Leads(trace[2], envs[0].root, script[0].dir, d) && Named(trace[2], d, script[0].name, c)
    ensures c !in trace[0] && c in trace[2] && trace[2] - {c} == trace[0] && !trace[2][c].attr.IsDirectory()
    ensures c != envs[0].root
    ensures forall j :: j in trace[2] ==> trace[2][j].dir != c
    ensures var data := script[1].data;
      if ClustersFor(|data|, envs[0].b) <= envs[0].free
      then
        && replies[1] == Count(|data|) && trace[2][c].attr.size == |data| && Content(trace[2][c]) == data
        && |trace[2][c].bytes| == Times(ClustersFor(|data|, envs[0].b), envs[0].b)
      else replies[1] == Answer(Error) && trace[2][c].attr.size == 0
  {
    hide Step, Leads, UniqueNames, AllWhole, ProperTable, RunOf, WellMade, NativeRun, Native, WriteEffect, Content,
         Homed, Used, ClustersFor;
    RunShapeOf(envs, script, trace, replies);
    RunStep(envs, script, trace, replies, 0);
    c := MadeThere(envs[0], trace[0], script[0], trace[1], replies[0], d);
    FirstSpace(envs, trace, 0);
    FirstSpace(envs, trace, 1);
    RunStep(envs, script, trace, replies, 1);
    MakeTakes(envs[0], trace[0], envs[1], trace[1], c, script[0]);
    WroteThere(envs[1], trace[1], script[1], trace[2], replies[1], d, c);
    FirstWrite(envs[1], trace[1][c], trace[2][c], script[1].data, replies[1]);
    NothingInNew(trace[0], trace[2], envs[0].root, script[0].dir, d, c);
  }

  // All of a content.
  lemma WholeContent(n: Node, size: nat, bytes: seq<byte>)
    requires n.attr.size <= size && |bytes| == n.attr.size
    requires forall i :: 0 <= i < |bytes| ==> bytes[i] == Content(n)[i]
    ensures bytes == Content(n)
  {
  }

  // Its second half, for a file that the first one has made.
  lemma LifeEnds(envs: seq<Env>, script: seq<Command>, trace: seq<Table>, replies: seq<Reply>, d: nat, c: nat)
    requires |envs| == |trace| == 6 && |replies| == |script| == 5
    requires script[2].ReadFrom? && script[3].Remove? && script[4].ReadFrom? && script[2].offset == 0
    requires forall i :: 2 <= i < 5 ==>
               && script[i].dir == script[2].dir && script[i].name == script[2].name && envs[i].Ok()
               && envs[i].root == envs[0].root && Step(envs[i], trace[i], script[i], trace[i + 1], replies[i])
               && ProperTable(trace[i]) && AllWhole(trace[i], envs[i].b)
    requires Leads(trace[2], envs[0].root, script[2].dir, d) && Named(trace[2], d, script[2].name, c)
    requires !trace[2][c].attr.IsDirectory() && trace[2][c].attr.size <= script[2].size
    requires forall j :: j in trace[2] ==> trace[2][j].dir != c
    requires Leads(trace[2] - {c}, envs[0].root, script[2].dir, d) && !Taken(trace[2] - {c}, d, script[2].name)
    ensures replies[2] == Data(Content(trace[2][c])) && replies[3] == Answer(Success)
    ensures replies[4] == Answer(FileNotFound) && trace[5] == trace[2] - {c}
  {
    hide Step, Leads, UniqueNames, AllWhole, ProperTable, Content;
    ProperUnique(trace[2]);
    ProperUnique(trace[3]);
    ReadThere(envs[2], trace[2], script[2], trace[3], replies[2], d, c);
    WholeContent(trace[2][c], script[2].size, replies[2].bytes);
    RemovedThere(envs[3], trace[3], script[3], trace[4], replies[3], d, c);
    NothingThere(envs[4], trace[4], script[4], trace[5], replies[4], d);
  }

  lemma Life(envs: seq<Env>, trace: seq<Table>, replies: seq<Reply>, dir: Path, name: seq<byte>, now: Ts,
      data: seq<byte>, d: nat)
    requires RunOf(envs, FileLife(dir, name, now, data), trace, replies) && |replies| == 5
    requires WellMade(trace, envs[0].b) && NativeRun(envs, trace) && Homed(trace[0], envs[0].root)
    requires ProperName(name) && |name| < MAX_NAME && 1 <= |data| < WORD && envs[0].free > 0
    requires Leads(trace[0], envs[0].root, dir, d) && d in envs[0].roomy && !Taken(trace[0], d, name)
    ensures trace[5] == trace[0] && replies[0] == Answer(Success)
    ensures replies[3] == Answer(Success) && replies[4] == Answer(FileNotFound)
    ensures if ClustersFor(|data|, envs[0].b) <= envs[0].free
            then replies[1] == Count(|data|) && replies[2] == Data(data)
            else replies[1] == Answer(Error) && replies[2] == Data([])
  {
    hide Step, Leads, UniqueNames, AllWhole, ProperTable, RunOf, WellMade, NativeRun, Native, Content, Homed,
         ClustersFor, Taken, Times;
    var script := FileLife(dir, name, now, data);
    var c := Grown(envs, script, trace, replies, d);
    RunShapeOf(envs, script, trace, replies);
    RunStep(envs, script, trace, replies, 2);
    RunStep(envs, script, trace, replies, 3);
    RunStep(envs, script, trace, replies, 4);
    NoContent(trace[2][c]);
    LifeEnds(envs, script, trace, replies, d, c);
  }

  lemma NoContent(n: Node)
    ensures n.attr.size == 0 ==> Content(n) == []
  {
  }

  lemma NothingInNew(abs: Table, abs': Table, root: nat, dir: Path, d: nat, c: nat)
    requires Homed(abs, root) && Leads(abs, root, dir, d) && c !in abs && c != root && c in abs' && abs' - {c} == abs
    requires abs'[c].dir == d
    ensures forall j :: j in abs' ==> abs'[j].dir != c
  {
    hide Leads;
    LeadsHome(abs, root, dir, d);
    forall j | j in abs' ensures abs'[j].dir != c {
      if j != c { assert j in abs && abs[j] == abs'[j]; }
    }
  }

  // A file made, written and moved, and read under both names.
  function FileMoved(dir: Path, name: seq<byte>, now: Ts, data: seq<byte>, dir2: Path, name2: seq<byte>)
      : (script: seq<Command>)
    ensures |script| == 5
  {
    [MakeFile(dir, name, now), WriteTo(dir, name, 0, data), Move(dir, name, dir2, name2, false, false, now),
     ReadFrom(dir2, name2, 0, |data|), ReadFrom(dir, name, 0, |data|)]
  }

  // Moving a file to a free name.
  lemma MovedThere(env: Env, abs: Table, cmd: Command, abs': Table, reply: Reply, d1: nat, d2: nat, k: nat)
    requires env.Ok() && UniqueNames(abs) && cmd.Move? && !cmd.exchange && !cmd.noReplace
    requires Step(env, abs, cmd, abs', reply) && Leads(abs, env.root, cmd.dir, d1) && Leads(abs, env.root, cmd.dir2, d2)
    requires Named(abs, d1, cmd.name, k) && (forall j :: j in abs ==> abs[j].dir != k) && d1 != k && d2 != k
    requires !Taken(abs, d2, cmd.name2) && ProperName(cmd.name2) && |cmd.name| < MAX_NAME && |cmd.name2| < MAX_NAME
    requires d1 == d2 || d2 in env.roomy
    ensures reply == Answer(if d1 == d2 || env.free > 0 then Success else Error)
    ensures reply == Answer(Error) ==> abs' == abs
    ensures reply == Answer(Success) ==>
              && Leads(abs', env.root, cmd.dir, d1) && Leads(abs', env.root, cmd.dir2, d2) && UniqueNames(abs')
              && Named(abs', d2, cmd.name2, k) && !Taken(abs', d1, cmd.name)
              && abs' == abs[k := abs[k].(dir := d2, attr := abs[k].attr.(name := cmd.name2))]
  {
    hide Step, Leads, Under, MoveEffect, Located;
    assert forall j :: Named(abs, d1, cmd.name, j) ==> j == k;
    hide UniqueNames;
    NotRunExactly(env, abs, cmd, abs', reply);
    assert OnlyBare(abs, d2, cmd.name2) && Callable(env, abs, cmd, d1);
    MoveLaw(env, abs, cmd, abs', reply, d1, d2);
    if reply == Answer(Success) {
      var k1, k2 :| MoveEffect(abs, abs', cmd, d1, d2, k1, k2);
      MovedIs(abs, abs', cmd, d1, d2, k, k1, k2);
      NothingInside(abs, k);
      NothingAbove(abs, k, d1);
      NothingAbove(abs, k, d2);
      PlainPaths(abs, abs', env.root, cmd, d1, d2, k);
    }
  }

  lemma MovedIs(abs: Table, abs': Table, cmd: Command, d1: nat, d2: nat, k: nat, k1: nat, k2: nat)
    requires cmd.Move? && !cmd.exchange && MoveEffect(abs, abs', cmd, d1, d2, k1, k2) && !Taken(abs, d2, cmd.name2)
    requires Named(abs, d1, cmd.name, k) && (Named(abs, d1, cmd.name, k1) ==> k1 == k)
    ensures k1 == k && MoveEffect(abs, abs', cmd, d1, d2, k, k) && UniqueNames(abs') && Named(abs', d2, cmd.name2, k)
    ensures !Taken(abs', d1, cmd.name)
    ensures abs' == abs[k := abs[k].(dir := d2, attr := abs[k].attr.(name := cmd.name2))]
  {
    hide UniqueNames;
  }

  // What a new file of len clusters leaves free, and where it leaves room.
  lemma SpaceLeft(env: Env, abs: Table, env': Env, abs': Table, c: nat, len: nat)
    requires env.Ok() && env'.Ok() && SameFs(env, env') && Native(env, abs) && Native(env', abs')
    requires c !in abs && c in abs' && abs' - {c} == abs && c != env.root
    requires !abs'[c].attr.IsDirectory() && |abs'[c].bytes| == Times(len, env.b)
    ensures env.free == env'.free + len
    ensures forall d :: (d == env.root || (d in abs && abs[d].attr.IsDirectory())) && d != abs'[c].dir ==>
              (d in env'.roomy <==> d in env.roomy)
  {
    hide Used, Holds;
    SpaceStays(env, abs, env', abs');
    UsedWithout(abs', c, env.b);
    HoldsTimes(abs'[c], len, env.b);
    forall d | (d == env.root || (d in abs && abs[d].attr.IsDirectory())) && d != abs'[c].dir
      ensures d in env'.roomy <==> d in env.roomy
    {
      assert abs' == abs[c := abs'[c]];
      assert Children(abs', d) == Children(abs, d);
    }
  }

  // A moved file's content is at the new path and nothing at the old one; across directories
  // the move needs a free cluster, and without one the file stays where it is.
  lemma FileMovedRun(envs: seq<Env>, trace: seq<Table>, replies: seq<Reply>, dir: Path, name: seq<byte>, now: Ts,
      data: seq<byte>, dir2: Path, name2: seq<byte>, d: nat, d2: nat)
    requires RunOf(envs, FileMoved(dir, name, now, data, dir2, name2), trace, replies) && |replies| == 5
    requires WellMade(trace, envs[0].b) && NativeRun(envs, trace) && Homed(trace[0], envs[0].root)
    requires ProperName(name) && |name| < MAX_NAME && ProperName(name2) && |name2| < MAX_NAME
    requires 1 <= |data| < WORD && ClustersFor(|data|, envs[0].b) <= envs[0].free
    requires Leads(trace[0], envs[0].root, dir, d) && d in envs[0].roomy && !Taken(trace[0], d, name)
    requires Leads(trace[0], envs[0].root, dir2, d2) && d2 in envs[0].roomy && !Taken(trace[0], d2, name2)
    requires d != d2 || name != name2
    ensures replies
         == if d == d2 || ClustersFor(|data|, envs[0].b) < envs[0].free
            then [Answer(Success), Count(|data|), Answer(Success), Data(data), Answer(FileNotFound)]
            else [Answer(Success), Count(|data|), Answer(Error), Answer(FileNotFound), Data(data)]
  {
    hide Step, Leads, UniqueNames, AllWhole, ProperTable, RunOf, WellMade, NativeRun, Native, Content, Homed,
         ClustersFor;
    var script := FileMoved(dir, name, now, data, dir2, name2);
    RunShapeOf(envs, script, trace, replies);
    var c := MovedUp(envs, script, trace, replies, d, d2);
    RunStep(envs, script, trace, replies, 3);
    RunStep(envs, script, trace, replies, 4);
    BothNames(envs, script, trace, replies, d, d2, c, data);
  }

  // The first three commands.
  lemma MovedUp(envs: seq<Env>, script: seq<Command>, trace: seq<Table>, replies: seq<Reply>, d: nat, d2: nat)
    returns (c: nat)
    requires RunOf(envs, script, trace, replies) && |replies| == 5 && WellMade(trace, envs[0].b)
    requires script[0].MakeFile? && script[1].WriteTo? && script[1].offset == 0 && script[2].Move?
    requires script[1].dir == script[2].dir == script[0].dir && script[1].name == script[2].name == script[0].name
    requires !script[2].exchange && !script[2].noReplace && NativeRun(envs, trace) && Homed(trace[0], envs[0].root)
    requires ProperName(script[0].name) && |script[0].name| < MAX_NAME
    requires ProperName(script[2].name2) && |script[2].name2| < MAX_NAME
    requires 1 <= |script[1].data| < WORD && ClustersFor(|script[1].data|, envs[0].b) <= envs[0].free
    requires Leads(trace[0], envs[0].root, script[0].dir, d) && d in envs[0].roomy
    requires Leads(trace[0], envs[0].root, script[2].dir2, d2) && d2 in envs[0].roomy
    requires !Taken(trace[0], d, script[0].name) && !Taken(trace[0], d2, script[2].name2)
    requires d != d2 || script[0].name != script[2].name2
    ensures |envs| == |trace| == |replies| + 1 && replies[0] == Answer(Success)
    ensures replies[1] == Count(|script[1].data|)
    ensures var moved := d == d2 || ClustersFor(|script[1].data|, envs[0].b) < envs[0].free;
      && replies[2] == Answer(if moved then Success else Error)
      && Leads(trace[3], envs[0].root, script[0].dir, d) && Leads(trace[3], envs[0].root, script[2].dir2, d2)
      && if moved then Named(trace[3], d2, script[2].name2, c) && !Taken(trace[3], d, script[0].name)
         else Named(trace[3], d, script[0].name, c) && !Taken(trace[3], d2, script[2].name2)
    ensures c in trace[3] && !trace[3][c].attr.IsDirectory() && trace[3][c].attr.size == |script[1].data|
    ensures Content(trace[3][c]) == script[1].data
  {
    hide Step, Leads, UniqueNames, AllWhole, ProperTable, RunOf, WellMade, NativeRun, Native, Content, Homed,
         ClustersFor, Taken, Times;
    c := Grown(envs, script, trace, replies, d);
    RunShapeOf(envs, script, trace, replies);
    FirstSpace(envs, trace, 0);
    FirstSpace(envs, trace, 2);
    SpaceLeft(envs[0], trace[0], envs[2], trace[2], c, ClustersFor(|script[1].data|, envs[0].b));
    LeadsHome(trace[0], envs[0].root, script[2].dir2, d2);
    StillThere(trace[0], trace[2], envs[0].root, script[2].dir2, script[2].name2, d, script[0].name, d2, c);
    RunStep(envs, script, trace, replies, 2);
    MovedThere(envs[2], trace[2], script[2], trace[3], replies[2], d, d2, c);
    SameContent(trace[2][c], d2, script[2].name2);
  }

  lemma SameContent(n: Node, d: nat, name: seq<byte>)
    ensures Content(n.(dir := d, attr := n.attr.(name := name))) == Content(n)
  {
  }

  // A new file changes nothing for other names.
  lemma StillThere(abs: Table, abs': Table, root: nat, dir2: Path, name2: seq<byte>, d: nat, name: seq<byte>, d2: nat,
      c: nat)
    requires Leads(abs, root, dir2, d2) && !Taken(abs, d2, name2) && c !in abs && Named(abs', d, name, c)
    requires abs' - {c} == abs && (d != d2 || name != name2)
    ensures Leads(abs', root, dir2, d2) && !Taken(abs', d2, name2)
  {
    hide Leads;
    assert abs' == abs[c := abs'[c]];
    LeadsMore(abs, abs', root, dir2, d2);
    forall k ensures !Named(abs', d2, name2, k) {
      assert k != c && Named(abs', d2, name2, k) ==> Named(abs, d2, name2, k);
    }
  }

  // The two reads.
  lemma BothNames(envs: seq<Env>, script: seq<Command>, trace: seq<Table>, replies: seq<Reply>, d: nat, d2: nat,
      c: nat, data: seq<byte>)
    requires |envs| == |trace| == 6 && |replies| == |script| == 5 && script[3].ReadFrom? && script[4].ReadFrom?
    requires forall i :: 3 <= i < 5 ==>
               && script[i].offset == 0 && script[i].size == |data| && envs[i].Ok() && envs[i].root == envs[0].root
               && Step(envs[i], trace[i], script[i], trace[i + 1], replies[i])
               && ProperTable(trace[i]) && AllWhole(trace[i], envs[i].b)
    requires Leads(trace[3], envs[0].root, script[3].dir, d2) && Leads(trace[3], envs[0].root, script[4].dir, d)
    requires c in trace[3] && !trace[3][c].attr.IsDirectory() && Content(trace[3][c]) == data
    requires trace[3][c].attr.size == |data|
    requires || (Named(trace[3], d2, script[3].name, c) && !Taken(trace[3], d, script[4].name))
             || (Named(trace[3], d, script[4].name, c) && !Taken(trace[3], d2, script[3].name))
    ensures if Named(trace[3], d2, script[3].name, c)
            then replies[3] == Data(data) && replies[4] == Answer(FileNotFound)
            else replies[3] == Answer(FileNotFound) && replies[4] == Data(data)
  {
    hide Step, Leads, UniqueNames, AllWhole, ProperTable, Content;
    ProperUnique(trace[3]);
    ProperUnique(trace[4]);
    if Named(trace[3], d2, script[3].name, c) {
      ReadThere(envs[3], trace[3], script[3], trace[4], replies[3], d2, c);
      WholeContent(trace[3][c], |data|, replies[3].bytes);
      NothingThere(envs[4], trace[4], script[4], trace[5], replies[4], d);
    } else {
      NothingThere(envs[3], trace[3], script[3], trace[4], replies[3], d2);
      ReadThere(envs[4], trace[4], script[4], trace[5], replies[4], d, c);
      WholeContent(trace[4][c], |data|, replies[4].bytes);
    }
  }

  // The life of a file on a mounted volume: every answer is known, and the table and the
  // space are what they were.
  method LiveFile(fs: Fs, dir: Path, name: seq<byte>, now: Ts, data: seq<byte>, ghost d: nat)
    returns (replies: seq<Reply>)
    requires Runnable(fs) && SingleDirs(fs.layout) && ProperName(name) && |name| < MAX_NAME && 1 <= |data| < WORD
    requires Leads(Abs(fs.vol, fs.layout), fs.geo.rootCluster, dir, d) && d in RoomyDirs(fs.vol, fs.layout)
    requires !Taken(Abs(fs.vol, fs.layout), d, name) && fs.geo.bytesPerCluster > 0
    modifies fs
    ensures Runnable(fs) && Abs(fs.vol, fs.layout) == old(Abs(fs.vol, fs.layout))
    ensures |AllocSet(fs.vol)| == old(|AllocSet(fs.vol)|)
    ensures replies
         == if old(|AllocSet(fs.vol)|) == 0
            then [Answer(Error), Answer(FileNotFound), Answer(FileNotFound), Answer(FileNotFound), Answer(FileNotFound)]
            else if ClustersFor(|data|, fs.geo.bytesPerCluster) <= old(|AllocSet(fs.vol)|)
            then [Answer(Success), Count(|data|), Data(data), Answer(Success), Answer(FileNotFound)]
            else [Answer(Success), Answer(Error), Data([]), Answer(Success), Answer(FileNotFound)]
  {
    hide Runnable, Abs, Leads, SingleDirs, RoomyDirs, AllocSet, EnvOf, ClustersFor, RunOf, NativeRun, WellMade, Homed,
         Taken, Inv;
    RunShape(fs);
    EnvParts(fs);
    InvHomed(fs.vol, fs.layout);
    ghost var trace, envs;
    replies, trace, envs := Run(fs, FileLife(dir, name, now, data));
    EnvParts(fs);
    FileLifeRun(envs, trace, replies, dir, name, now, data, d);
  }

  // Moving a file on a mounted volume.
  method MoveFile(fs: Fs, dir: Path, name: seq<byte>, now: Ts, data: seq<byte>, dir2: Path, name2: seq<byte>,
      ghost d: nat, ghost d2: nat)
    returns (replies: seq<Reply>)
    requires Runnable(fs) && SingleDirs(fs.layout) && ProperName(name) && |name| < MAX_NAME && 1 <= |data| < WORD
    requires ProperName(name2) && |name2| < MAX_NAME && (d != d2 || name != name2)
    requires Leads(Abs(fs.vol, fs.layout), fs.geo.rootCluster, dir, d) && d in RoomyDirs(fs.vol, fs.layout)
    requires Leads(Abs(fs.vol, fs.layout), fs.geo.rootCluster, dir2, d2) && d2 in RoomyDirs(fs.vol, fs.layout)
    requires !Taken(Abs(fs.vol, fs.layout), d, name) && !Taken(Abs(fs.vol, fs.layout), d2, name2)
    requires fs.geo.bytesPerCluster > 0 && ClustersFor(|data|, fs.geo.bytesPerCluster) <= |AllocSet(fs.vol)|
    modifies fs
    ensures Runnable(fs)
    ensures replies
         == if d == d2 || ClustersFor(|data|, fs.geo.bytesPerCluster) < old(|AllocSet(fs.vol)|)
            then [Answer(Success), Count(|data|), Answer(Success), Data(data), Answer(FileNotFound)]
            else [Answer(Success), Count(|data|), Answer(Error), Answer(FileNotFound), Data(data)]
  {
    hide Runnable, Abs, Leads, SingleDirs, RoomyDirs, AllocSet, EnvOf, ClustersFor, RunOf, NativeRun, WellMade, Homed,
         Taken, Inv;
    RunShape(fs);
    EnvParts(fs);
    InvHomed(fs.vol, fs.layout);
    ghost var trace, envs;
    replies, trace, envs := Run(fs, FileMoved(dir, name, now, data, dir2, name2));
    FileMovedRun(envs, trace, replies, dir, name, now, data, dir2, name2, d, d2);
  }
}
