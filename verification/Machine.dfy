// The file system as a machine over the inode table: what every command answers and what it
// leaves, given the free space and the directories with room.

module Machine {
  import opened Bytes
  import opened Endian
  import opened Codec
  import opened Geometry
  import opened Streams
  import opened Layouts
  import opened FatxFs
  import opened Files
  import opened FileOps
  import opened Contents
  import opened Spaces
  import opened Rooms
  import opened Renames

  type Path = seq<seq<byte>>

  type Table = map<nat, Node>

  datatype Command =
    | MakeFile(dir: Path, name: seq<byte>, now: Ts)
    | MakeDir(dir: Path, name: seq<byte>, now: Ts)
    | ReadFrom(dir: Path, name: seq<byte>, offset: nat, size: nat)
    | WriteTo(dir: Path, name: seq<byte>, offset: nat, data: seq<byte>)
    | Resize(dir: Path, name: seq<byte>, size: nat)
    | Remove(dir: Path, name: seq<byte>)
    | RemoveDir(dir: Path, name: seq<byte>)
    | Move(dir: Path, name: seq<byte>, dir2: Path, name2: seq<byte>, exchange: bool, noReplace: bool, now: Ts)

  // What a caller sees of a command.  NotRun: a check that the caller owes failed, and the
  // operation was not called.
  datatype Reply = NotRun | Answer(status: Status) | Count(count: nat) | Data(bytes: seq<byte>)

  // What the answers depend on besides the table: the byte order, the bytes of a cluster,
  // the number of clusters, number 0 included, the root directory's first cluster, and the
  // space, that is the free clusters and the directories with room for another entry.
  datatype Env = Env(variant: Variant, b: nat, n: nat, root: nat, free: nat, roomy: set<nat>) {
    ghost predicate Ok() {
      b >= 512 && 1 <= root < n && n >= 3 && n < WORD
    }
  }

  // The same file system, whatever its space.
  ghost predicate SameFs(env: Env, env': Env) {
    env' == env.(free := env'.free, roomy := env'.roomy)
  }

  // ---- names and paths ----

  // Following the names of path from directory d leads to directory e.
  ghost predicate Leads(abs: Table, d: nat, path: Path, e: nat)
    decreases |path|
  {
    if path == [] then d == e
    else exists k :: Named(abs, d, path[0], k) && abs[k].attr.IsDirectory() && Leads(abs, k, path[1..], e)
  }

  ghost predicate Named(abs: Table, d: nat, name: seq<byte>, k: nat) {
    k in abs && abs[k].dir == d && abs[k].attr.name == name
  }

  ghost predicate Taken(abs: Table, d: nat, name: seq<byte>) {
    exists k :: Named(abs, d, name, k)
  }

  // No directory has two entries of one name.
  ghost predicate UniqueNames(abs: Table) {
    forall d, name, j, k :: Named(abs, d, name, j) && Named(abs, d, name, k) ==> j == k
  }

  predicate ProperName(name: seq<byte>) {
    name != [] && 0 !in name
  }

  // The path dir and then name lead to node k.
  ghost predicate Located(abs: Table, root: nat, dir: Path, name: seq<byte>, k: nat) {
    exists d :: Leads(abs, root, dir, d) && Named(abs, d, name, k)
  }

  // Every node is in the root directory or in one that is in the table.
  ghost predicate Homed(abs: Table, root: nat) {
    forall k :: k in abs ==> abs[k].dir == root || abs[k].dir in abs
  }

  // ---- space ----

  // The clusters of a node's chain.
  function Holds(n: Node, b: nat): nat
    requires b > 0
  {
    if n.attr.IsDirectory() then 1 else |n.bytes| / b
  }

  ghost function Used(abs: Table, b: nat): nat
    requires b > 0
    decreases |abs|
  {
    if abs == map[] then 0
    else
      var k :| k in abs;
      Holds(abs[k], b) + Used(abs - {k}, b)
  }

  ghost function Children(abs: Table, d: nat): set<nat> {
    set k | k in abs && abs[k].dir == d
  }

  // Room for another entry and the end marker in a directory of one cluster.
  ghost predicate Room(abs: Table, d: nat, b: nat) {
    |Children(abs, d)| + 1 < SlotsPerCluster(b)
  }

  // The space of a volume that libfatx formatted follows from its table.  Free is all but
  // number 0, the root directory's cluster, number 1 where that is another one, and what
  // the nodes hold; there is room by the number of entries.
  ghost predicate Native(env: Env, abs: Table)
    requires env.Ok()
  {
    && env.free + Used(abs, env.b) + (if env.root == 1 then 2 else 3) == env.n
    && forall d :: d == env.root || (d in abs && abs[d].attr.IsDirectory()) ==>
         (d in env.roomy <==> Room(abs, d, env.b))
  }

  // ---- the commands, in the directory they name ----

  ghost predicate MakeStep(env: Env, abs: Table, abs': Table, reply: Reply, d: nat, name: seq<byte>, attributes: byte,
      now: Ts)
    requires env.Ok()
  {
    if !ProperName(name) || d !in env.roomy then reply == NotRun && abs' == abs
    else if Taken(abs, d, name) || |name| >= MAX_NAME || env.free == 0 then reply == Answer(Error) && abs' == abs
    else
      && reply == Answer(Success)
      && exists c :: 2 <= c < env.n && c != env.root && c !in abs && abs' == abs[c := NewNode(env.variant, d,
         NewAttr(name, attributes, c, now), env.b)]
  }

  ghost predicate ReadStep(abs: Table, abs': Table, reply: Reply, d: nat, name: seq<byte>, offset: nat, size: nat) {
    && abs' == abs
    && if !Taken(abs, d, name) then reply == Answer(FileNotFound)
       else
         exists k :: && Named(abs, d, name, k)
                     && reply == if abs[k].attr.IsDirectory() then NotRun else Data(ReadBack(abs[k], offset, size))
  }

  // Writing data to file n, total clusters being its own or free: the file and the answer.
  // Out of space, the gap before the data stays open, or nothing of the data finds a place,
  // or as much of it as the clusters hold, and the answer hides that part.
  function WriteOutcome(n: Node, total: nat, offset: nat, data: seq<byte>, b: nat): (Node, Reply)
    requires b > 0
  {
    var room := Times(total, b);
    var m := GapClosed(n, offset, b);
    if ClustersFor(offset + |data|, b) <= total then (WrittenNode(n, offset, data, b), Count(|data|))
    else if offset > n.attr.size && ClustersFor(offset + 1, b) > total
         then (n.(bytes := Fit(n.bytes, room)), Answer(Error))
    else if room <= offset then (m.(bytes := Fit(m.bytes, room)), Count(0))
    else (m.(bytes := Splice(Fit(m.bytes, room), offset, data[..Min(|data|, room - offset)])), Answer(Error))
  }

  ghost predicate WriteStep(env: Env, abs: Table, abs': Table, reply: Reply, d: nat, name: seq<byte>, offset: nat,
      data: seq<byte>)
    requires env.Ok()
  {
    if data == [] || offset + |data| >= WORD then reply == NotRun && abs' == abs
    else if !Taken(abs, d, name) then reply == Answer(FileNotFound) && abs' == abs
    else
      exists k :: Named(abs, d, name, k) && if abs[k].attr.IsDirectory() then reply == NotRun && abs' == abs
                                            else Wrote(env, abs, abs', reply, k, offset, data)
  }

  ghost predicate Wrote(env: Env, abs: Table, abs': Table, reply: Reply, k: nat, offset: nat, data: seq<byte>)
    requires env.Ok() && k in abs
  {
    var out := WriteOutcome(abs[k], Holds(abs[k], env.b) + env.free, offset, data, env.b);
    abs' == abs[k := out.0] && reply == out.1
  }

  function ResizeOutcome(n: Node, total: nat, size: nat, b: nat): (Node, Reply)
    requires b > 0
  {
    if ClustersFor(size, b) <= total then (TruncatedNode(n, size, b), Answer(Success))
    else (n.(bytes := Fit(n.bytes, Times(total, b))), Answer(Error))
  }

  ghost predicate ResizeStep(env: Env, abs: Table, abs': Table, reply: Reply, d: nat, name: seq<byte>, size: nat)
    requires env.Ok()
  {
    if size >= WORD then reply == NotRun && abs' == abs
    else if !Taken(abs, d, name) then reply == Answer(FileNotFound) && abs' == abs
    else
      exists k :: Named(abs, d, name, k) && if abs[k].attr.IsDirectory() then reply == NotRun && abs' == abs
                                            else Resized(env, abs, abs', reply, k, size)
  }

  ghost predicate Resized(env: Env, abs: Table, abs': Table, reply: Reply, k: nat, size: nat)
    requires env.Ok() && k in abs
  {
    var out := ResizeOutcome(abs[k], Holds(abs[k], env.b) + env.free, size, env.b);
    abs' == abs[k := out.0] && reply == out.1
  }

  ghost predicate RemoveStep(abs: Table, abs': Table, reply: Reply, d: nat, name: seq<byte>) {
    if !Taken(abs, d, name) then reply == Answer(FileNotFound) && abs' == abs
    else
      exists k :: && Named(abs, d, name, k)
                  && if NothingIn(abs, k) then reply == Answer(Success) && abs' == abs - {k}
                     else reply == NotRun && abs' == abs
  }

  ghost predicate RemoveDirStep(abs: Table, abs': Table, reply: Reply, d: nat, name: seq<byte>) {
    if !exists k :: Named(abs, d, name, k) && abs[k].attr.IsDirectory()
       then reply == Answer(FileNotFound) && abs' == abs
    else
      exists k :: && Named(abs, d, name, k)
                  && if NothingIn(abs, k) then reply == Answer(Success) && abs' == abs - {k}
                     else reply == Answer(EndOfDir) && abs' == abs
  }

  // A target to be replaced is a file or an empty directory, and a target in another
  // directory finds room there.
  ghost predicate Movable(env: Env, abs: Table, d1: nat, d2: nat, to: seq<byte>, exchange: bool, noReplace: bool) {
    && (!exchange && !noReplace ==> forall k :: Named(abs, d2, to, k) ==> NothingIn(abs, k))
    && (!exchange && d1 != d2 && !Taken(abs, d2, to) ==> d2 in env.roomy)
  }

  ghost predicate MoveStep(env: Env, abs: Table, abs': Table, reply: Reply, d1: nat, from: seq<byte>, d2: nat,
      to: seq<byte>, exchange: bool, noReplace: bool)
    requires env.Ok()
  {
    if !ProperName(to) || !Movable(env, abs, d1, d2, to, exchange, noReplace) then reply == NotRun && abs' == abs
    else
      var status := RenameStatus(!Taken(abs, d1, from), !Taken(abs, d2, to), env.free == 0,
                                 d1 == d2, from, to, exchange, noReplace);
      && reply == Answer(status)
      && if status == Success then MovedBetween(abs, abs', d1, from, d2, to, exchange)
         else if status == FileNotFound && Taken(abs, d1, from)
         then exists k :: Named(abs, d1, from, k) && abs' == abs - {k}
         else abs' == abs
  }

  ghost predicate MovedBetween(abs: Table, abs': Table, d1: nat, from: seq<byte>, d2: nat, to: seq<byte>,
      exchange: bool) {
    exists kf, kt :: && Named(abs, d1, from, kf) && (Taken(abs, d2, to) ==> Named(abs, d2, to, kt))
                     && Renamed(abs, abs', kf, kt, d2, to, Taken(abs, d2, to), exchange)
  }

  ghost predicate StepIn(env: Env, abs: Table, abs': Table, reply: Reply, d: nat, cmd: Command)
    requires env.Ok()
  {
    match cmd
    case MakeFile(_, name, now) => MakeStep(env, abs, abs', reply, d, name, 0, now)
    case MakeDir(_, name, now) => MakeStep(env, abs, abs', reply, d, name, ATTR_DIRECTORY, now)
    case ReadFrom(_, name, offset, size) => ReadStep(abs, abs', reply, d, name, offset, size)
    case WriteTo(_, name, offset, data) => WriteStep(env, abs, abs', reply, d, name, offset, data)
    case Resize(_, name, size) => ResizeStep(env, abs, abs', reply, d, name, size)
    case Remove(_, name) => RemoveStep(abs, abs', reply, d, name)
    case RemoveDir(_, name) => RemoveDirStep(abs, abs', reply, d, name)
    case Move(_, name, dir2, name2, exchange, noReplace, _) =>
      if !exists d2 :: Leads(abs, env.root, dir2, d2) then reply == NotRun && abs' == abs
      else exists d2 :: Leads(abs, env.root, dir2, d2) && MoveStep(env, abs, abs', reply, d, name, d2, name2, exchange,
           noReplace)
  }

  // One command on table abs: the answer and the table it leaves.
  ghost predicate Step(env: Env, abs: Table, cmd: Command, abs': Table, reply: Reply)
    requires env.Ok()
  {
    if !exists d :: Leads(abs, env.root, cmd.dir, d) then reply == NotRun && abs' == abs
    else exists d :: Leads(abs, env.root, cmd.dir, d) && StepIn(env, abs, abs', reply, d, cmd)
  }

  // ---- the machine is deterministic ----

  lemma {:induction false} LeadsUnique(abs: Table, d: nat, path: Path, e1: nat, e2: nat)
    requires UniqueNames(abs) && Leads(abs, d, path, e1) && Leads(abs, d, path, e2)
    ensures e1 == e2
    decreases |path|
  {
    if path != [] {
      var k1 :| Named(abs, d, path[0], k1) && abs[k1].attr.IsDirectory() && Leads(abs, k1, path[1..], e1);
      var k2 :| Named(abs, d, path[0], k2) && abs[k2].attr.IsDirectory() && Leads(abs, k2, path[1..], e2);
      LeadsUnique(abs, k1, path[1..], e1, e2);
    }
  }

  lemma {:induction false} LeadsOn(abs: Table, d: nat, path: Path, e: nat, k: nat)
    requires Leads(abs, d, path, e) && k in abs && abs[k].dir == e && abs[k].attr.IsDirectory()
    ensures Leads(abs, d, path + [abs[k].attr.name], k)
    decreases |path|
  {
    var path' := path + [abs[k].attr.name];
    if path == [] {
      assert Named(abs, d, path'[0], k) && Leads(abs, k, path'[1..], k);
    } else {
      var j :| Named(abs, d, path[0], j) && abs[j].attr.IsDirectory() && Leads(abs, j, path[1..], e);
      LeadsOn(abs, j, path[1..], e, k);
      assert path'[1..] == path[1..] + [abs[k].attr.name];
    }
  }

  // A longer path is followed over its beginning.
  lemma {:induction false} LeadsSplit(abs: Table, d: nat, path: Path, rest: Path, e: nat) returns (m: nat)
    requires Leads(abs, d, path + rest, e)
    ensures Leads(abs, d, path, m) && Leads(abs, m, rest, e)
    decreases |path|
  {
    if path == [] {
      assert path + rest == rest;
      m := d;
    } else {
      var whole := path + rest;
      var k :| Named(abs, d, whole[0], k) && abs[k].attr.IsDirectory() && Leads(abs, k, whole[1..], e);
      assert whole[1..] == path[1..] + rest;
      m := LeadsSplit(abs, k, path[1..], rest, e);
      assert Named(abs, d, path[0], k);
    }
  }

  // Two tables that differ in the number of the new file or directory only.
  ghost predicate SameButNumber(abs: Table, abs1: Table, abs2: Table) {
    exists c1: nat, c2: nat, n1: Node ::
      && c1 !in abs && c2 !in abs && abs1 == abs[c1 := n1] && n1.attr.first == c1
      && abs2 == abs[c2 := n1.(attr := n1.attr.(first := c2))]
  }

  lemma NewNodeNumber(variant: Variant, d: nat, name: seq<byte>, attributes: byte, c1: nat, c2: nat, now: Ts, b: nat)
    requires c1 < WORD && c2 < WORD
    ensures var n1, n2 := NewNode(variant, d, NewAttr(name, attributes, c1, now), b),
            NewNode(variant, d, NewAttr(name, attributes, c2, now), b);
      n1.attr.first == c1 && n2 == n1.(attr := n1.attr.(first := c2))
  {
  }

  lemma MakeDeterministic(env: Env, abs: Table, abs1: Table, reply1: Reply, abs2: Table, reply2: Reply, d: nat,
      name: seq<byte>, attributes: byte, now: Ts)
    requires env.Ok() && MakeStep(env, abs, abs1, reply1, d, name, attributes, now)
    requires MakeStep(env, abs, abs2, reply2, d, name, attributes, now)
    ensures reply1 == reply2 && (abs1 == abs2 || SameButNumber(abs, abs1, abs2))
  {
    hide NewNode;
    if reply1 == Answer(Success) {
      var c1 :| 2 <= c1 < env.n && c1 != env.root && c1 !in abs && abs1 == abs[c1 := NewNode(env.variant, d,
          NewAttr(name, attributes, c1, now), env.b)];
      var c2 :| 2 <= c2 < env.n && c2 != env.root && c2 !in abs && abs2 == abs[c2 := NewNode(env.variant, d,
          NewAttr(name, attributes, c2, now), env.b)];
      NewNodeNumber(env.variant, d, name, attributes, c1, c2, now, env.b);
    }
  }

  lemma FileDeterministic(env: Env, abs: Table, abs1: Table, reply1: Reply, abs2: Table, reply2: Reply, d: nat,
      cmd: Command)
    requires env.Ok() && UniqueNames(abs) && (cmd.WriteTo? || cmd.Resize?)
    requires StepIn(env, abs, abs1, reply1, d, cmd) && StepIn(env, abs, abs2, reply2, d, cmd)
    ensures reply1 == reply2 && abs1 == abs2
  {
    hide WriteOutcome, ResizeOutcome, Holds, Leads, MakeStep, ReadStep, RemoveStep, RemoveDirStep, MoveStep;
  }

  lemma EntryDeterministic(env: Env, abs: Table, abs1: Table, reply1: Reply, abs2: Table, reply2: Reply, d: nat,
      cmd: Command)
    requires env.Ok() && UniqueNames(abs) && (cmd.ReadFrom? || cmd.Remove? || cmd.RemoveDir?)
    requires StepIn(env, abs, abs1, reply1, d, cmd) && StepIn(env, abs, abs2, reply2, d, cmd)
    ensures reply1 == reply2 && abs1 == abs2
  {
    hide NothingIn, ReadBack;
  }

  lemma MoveDeterministic(env: Env, abs: Table, abs1: Table, reply1: Reply, abs2: Table, reply2: Reply, d1: nat,
      from: seq<byte>, d2: nat, to: seq<byte>, exchange: bool, noReplace: bool)
    requires env.Ok() && UniqueNames(abs)
    requires MoveStep(env, abs, abs1, reply1, d1, from, d2, to, exchange, noReplace)
    requires MoveStep(env, abs, abs2, reply2, d1, from, d2, to, exchange, noReplace)
    ensures reply1 == reply2 && abs1 == abs2
  {
    hide Movable, RenameStatus, Replaced, ExchangedNodes, MovedTo;
  }

  // A command on a table has one answer and leaves one table, up to the number a new file
  // or directory gets.
  lemma StepDeterministic(env: Env, abs: Table, cmd: Command, abs1: Table, reply1: Reply, abs2: Table, reply2: Reply)
    requires env.Ok() && UniqueNames(abs) && Step(env, abs, cmd, abs1, reply1) && Step(env, abs, cmd, abs2, reply2)
    ensures reply1 == reply2 && (abs1 == abs2 || ((cmd.MakeFile? || cmd.MakeDir?) && SameButNumber(abs, abs1, abs2)))
  {
    hide UniqueNames, Leads, SameButNumber, MakeStep, ReadStep, WriteStep, ResizeStep, RemoveStep, RemoveDirStep,
         MoveStep;
    if exists d :: Leads(abs, env.root, cmd.dir, d) {
      var d :| Leads(abs, env.root, cmd.dir, d) && StepIn(env, abs, abs1, reply1, d, cmd);
      var e :| Leads(abs, env.root, cmd.dir, e) && StepIn(env, abs, abs2, reply2, e, cmd);
      LeadsUnique(abs, env.root, cmd.dir, d, e);
      match cmd {
        case MakeFile(_, name, now) => MakeDeterministic(env, abs, abs1, reply1, abs2, reply2, d, name, 0, now);
        case MakeDir(_, name, now) => MakeDeterministic(env, abs, abs1, reply1, abs2, reply2, d, name, ATTR_DIRECTORY,
          now);
        case Move(_, name, dir2, name2, exchange, noReplace, _) =>
          if exists d2 :: Leads(abs, env.root, dir2, d2) {
            var d2 :| Leads(abs, env.root, dir2, d2) && MoveStep(env, abs, abs1, reply1, d, name, d2, name2, exchange,
                noReplace);
            var e2 :| Leads(abs, env.root, dir2, e2) && MoveStep(env, abs, abs2, reply2, d, name, e2, name2, exchange,
                noReplace);
            LeadsUnique(abs, env.root, dir2, d2, e2);
            MoveDeterministic(env, abs, abs1, reply1, abs2, reply2, d, name, d2, name2, exchange, noReplace);
          }
        case ReadFrom(_, _, _, _) => EntryDeterministic(env, abs, abs1, reply1, abs2, reply2, d, cmd);
        case WriteTo(_, _, _, _) => FileDeterministic(env, abs, abs1, reply1, abs2, reply2, d, cmd);
        case Resize(_, _, _) => FileDeterministic(env, abs, abs1, reply1, abs2, reply2, d, cmd);
        case Remove(_, _) => EntryDeterministic(env, abs, abs1, reply1, abs2, reply2, d, cmd);
        case RemoveDir(_, _) => EntryDeterministic(env, abs, abs1, reply1, abs2, reply2, d, cmd);
      }
    }
  }

  // ---- space ----

  // The total does not depend on the order of summation.
  lemma {:induction false} UsedWithout(abs: Table, k: nat, b: nat)
    requires b > 0 && k in abs
    ensures Used(abs, b) == Holds(abs[k], b) + Used(abs - {k}, b)
    decreases |abs|
  {
    hide Holds;
    var l :| l in abs && Used(abs, b) == Holds(abs[l], b) + Used(abs - {l}, b);
    if l != k {
      UsedWithout(abs - {l}, k, b);
      UsedWithout(abs - {k}, l, b);
      assert abs - {l} - {k} == abs - {k} - {l};
    }
  }

  // ---- what the contracts of writing and truncating say about the outcome ----

  lemma HoldsTimes(n: Node, len: nat, b: nat)
    requires b > 0 && |n.bytes| == Times(len, b) && !n.attr.IsDirectory()
    ensures Holds(n, b) == len
  {
    TimesIsProduct(len, b);
    ProductQuotient(len, b);
  }

  lemma ProductQuotient(q: nat, b: nat)
    requires b > 0
    ensures q * b / b == q
  {
    QuotientUnique(q, 0, q * b / b, q * b % b, b);
  }

  lemma NeedsMore(size: nat, total: nat, b: nat)
    requires b > 0
    ensures ClustersFor(size, b) <= total ==> size <= Times(total, b)
    ensures total >= 1 && size <= Times(total, b) ==> ClustersFor(size, b) <= total
    ensures Times(total, b) < size ==> ClustersFor(size, b) > total
  {
    TimesOrder(total, ClustersFor(size, b) - 1, b);
    TimesOrder(ClustersFor(size, b), total, b);
  }

  // A completed write took what its end needs.
  lemma WrittenFits(n: Node, offset: nat, data: seq<byte>, len: nat, total: nat, b: nat)
    requires b > 0 && data != [] && |WrittenNode(n, offset, data, b).bytes| == Times(len, b) && len <= total
    ensures ClustersFor(offset + |data|, b) <= total
  {
    hide GapClosed, ClustersFor;
    assert Times(ClustersFor(offset + |data|, b), b) <= Times(len, b);
    TimesOrder(len, ClustersFor(offset + |data|, b), b);
  }

  // Stopped because the offset's cluster was not reached.
  lemma StuckOutcome(n: Node, offset: nat, data: seq<byte>, total: nat, b: nat)
    requires b > 0 && data != [] && offset <= n.attr.size && Times(total, b) <= offset
    ensures WriteOutcome(n, total, offset, data, b) == (n.(bytes := Fit(n.bytes, Times(total, b))), Count(0))
  {
    hide ClustersFor, Fit;
    NeedsMore(offset + |data|, total, b);
  }

  // Stopped with part of the data written, or before the gap was closed.
  lemma PartlyOutcome(n: Node, n': Node, offset: nat, data: seq<byte>, count: nat, total: nat, b: nat)
    requires b > 0 && total >= 1 && PartlyWritten(n, n', Times(total, b), offset, data, count, b) && data != []
    ensures WriteOutcome(n, total, offset, data, b) == (n', Answer(Error))
  {
    hide ClustersFor, Fit, GapClosed, Splice;
    var room := Times(total, b);
    NeedsMore(offset + |data|, total, b);
    NeedsMore(offset + 1, total, b);
    if offset > n.attr.size && count == 0 && room < Times(ClustersFor(offset + 1, b), b)
       && n' == n.(bytes := Fit(n.bytes, room)) {
      PartlyBeforeGap(n, offset, data, total, b);
    } else {
      assert Min(|data|, room - offset) == count;
    }
  }

  lemma PartlyBeforeGap(n: Node, offset: nat, data: seq<byte>, total: nat, b: nat)
    requires b > 0 && data != [] && offset > n.attr.size && Times(total, b) < Times(ClustersFor(offset + 1, b), b)
    ensures ClustersFor(offset + 1, b) > total && ClustersFor(offset + |data|, b) > total
  {
    TimesOrder(ClustersFor(offset + 1, b), total, b);
    ClustersForMonotone(offset + 1, offset + |data|, b);
  }

  // ---- what every command keeps ----

  // Names are unique and every file's size fits its chain.
  ghost predicate ProperTable(abs: Table) {
    UniqueNames(abs) && forall k :: k in abs && !abs[k].attr.IsDirectory() ==> Sized(abs[k])
  }

  // The command ran out of space.
  predicate RanOut(cmd: Command, reply: Reply) {
    || (cmd.WriteTo? && reply != NotRun && reply != Answer(FileNotFound) && reply != Count(|cmd.data|))
    || (cmd.Resize? && reply == Answer(Error))
  }

  lemma OneMoreTight(abs: Table, k: nat, n: Node, b: nat)
    requires b > 0 && AllTight(abs, b) && (n.attr.IsDirectory() || Tight(n, b))
    ensures AllTight(abs[k := n], b)
  {
    hide Tight;
  }

  lemma NewNodeTight(variant: Variant, d: nat, name: seq<byte>, attributes: byte, c: nat, now: Ts, b: nat)
    requires b > 0
    ensures var n := NewNode(variant, d, NewAttr(name, attributes, c, now), b); n.attr.IsDirectory() || Tight(n, b)
  {
    TimesStep(0, b);
  }

  lemma MakeKeepsTight(env: Env, abs: Table, abs': Table, reply: Reply, d: nat, name: seq<byte>, attributes: byte,
      now: Ts)
    requires env.Ok() && AllTight(abs, env.b) && MakeStep(env, abs, abs', reply, d, name, attributes, now)
    ensures AllTight(abs', env.b)
  {
    hide AllTight, NewNode, Tight;
    if reply == Answer(Success) {
      var c :| 2 <= c < env.n && c != env.root && c !in abs && abs' == abs[c := NewNode(env.variant, d,
          NewAttr(name, attributes, c, now), env.b)];
      NewNodeTight(env.variant, d, name, attributes, c, now, env.b);
      OneMoreTight(abs, c, NewNode(env.variant, d, NewAttr(name, attributes, c, now), env.b), env.b);
    }
  }

  lemma WriteKeepsTight(env: Env, abs: Table, abs': Table, reply: Reply, k: nat, offset: nat, data: seq<byte>)
    requires env.Ok() && AllTight(abs, env.b) && k in abs && !abs[k].attr.IsDirectory() && Sized(abs[k])
    requires Wrote(env, abs, abs', reply, k, offset, data) && data != [] && offset + |data| < WORD
             && reply == Count(|data|)
    ensures AllTight(abs', env.b)
  {
    hide AllTight, Tight, Times, ClustersFor, Fit, Splice, WrittenNode, Holds;
    assert Tight(abs[k], env.b) by { TightNode(abs, k, env.b); }
    WrittenTight(abs[k], offset, data, env.b);
    OneMoreTight(abs, k, WrittenNode(abs[k], offset, data, env.b), env.b);
  }

  lemma TightNode(abs: Table, k: nat, b: nat)
    requires b > 0 && AllTight(abs, b) && k in abs && !abs[k].attr.IsDirectory()
    ensures Tight(abs[k], b)
  {
  }

  lemma ResizeKeepsTight(env: Env, abs: Table, abs': Table, reply: Reply, k: nat, size: nat)
    requires env.Ok() && AllTight(abs, env.b) && k in abs && size < WORD
    requires Resized(env, abs, abs', reply, k, size) && reply == Answer(Success)
    ensures AllTight(abs', env.b)
  {
    hide AllTight, Tight, Times, ClustersFor, Fit, TruncatedNode, Holds;
    TruncatedTight(abs[k], size, env.b);
    OneMoreTight(abs, k, TruncatedNode(abs[k], size, env.b), env.b);
  }

  lemma FewerTight(abs: Table, gone: set<nat>, b: nat)
    requires b > 0 && AllTight(abs, b)
    ensures AllTight(abs - gone, b)
  {
    hide Tight;
  }

  lemma MoveKeepsTight(abs: Table, abs': Table, d1: nat, from: seq<byte>, d2: nat, to: seq<byte>, exchange: bool,
      b: nat)
    requires b > 0 && AllTight(abs, b) && MovedBetween(abs, abs', d1, from, d2, to, exchange)
    ensures AllTight(abs', b)
  {
    hide Times, ClustersFor;
  }

  // Every command that does not run out of space leaves every file with exactly the
  // clusters its size needs.
  lemma StepKeepsTight(env: Env, abs: Table, cmd: Command, abs': Table, reply: Reply)
    requires env.Ok() && ProperTable(abs) && AllTight(abs, env.b) && Step(env, abs, cmd, abs', reply)
             && !RanOut(cmd, reply)
    ensures AllTight(abs', env.b)
  {
    hide Leads, MakeStep, WriteStep, ResizeStep, MoveStep, NothingIn, ReadBack, AllTight, ProperTable;
    if exists d :: Leads(abs, env.root, cmd.dir, d) {
      var d :| Leads(abs, env.root, cmd.dir, d) && StepIn(env, abs, abs', reply, d, cmd);
      match cmd {
        case MakeFile(_, name, now) => MakeKeepsTight(env, abs, abs', reply, d, name, 0, now);
        case MakeDir(_, name, now) => MakeKeepsTight(env, abs, abs', reply, d, name, ATTR_DIRECTORY, now);
        case ReadFrom(_, _, _, _) =>
        case WriteTo(_, name, offset, data) =>
          WriteCommandTight(env, abs, abs', reply, d, name, offset, data);
        case Resize(_, name, size) =>
          ResizeCommandTight(env, abs, abs', reply, d, name, size);
        case Remove(_, name) =>
          if abs' != abs {
            var k :| Named(abs, d, name, k) && abs' == abs - {k};
            FewerTight(abs, {k}, env.b);
          }
        case RemoveDir(_, name) =>
          if abs' != abs {
            var k :| Named(abs, d, name, k) && abs' == abs - {k};
            FewerTight(abs, {k}, env.b);
          }
        case Move(_, name, dir2, name2, exchange, noReplace, _) =>
          MoveCommandTight(env, abs, cmd, abs', reply, d);
      }
    }
  }

  lemma WriteCommandTight(env: Env, abs: Table, abs': Table, reply: Reply, d: nat, name: seq<byte>, offset: nat,
      data: seq<byte>)
    requires env.Ok() && ProperTable(abs) && AllTight(abs, env.b) && WriteStep(env, abs, abs', reply, d, name, offset,
             data)
    requires reply in {NotRun, Answer(FileNotFound), Count(|data|)}
    ensures AllTight(abs', env.b)
  {
    hide Wrote, AllTight, UniqueNames, Sized;
    if abs' != abs {
      var k :| Named(abs, d, name, k) && Wrote(env, abs, abs', reply, k, offset, data) && !abs[k].attr.IsDirectory();
      WroteReply(env, abs, abs', reply, k, offset, data);
      WriteKeepsTight(env, abs, abs', reply, k, offset, data);
    }
  }

  lemma WroteReply(env: Env, abs: Table, abs': Table, reply: Reply, k: nat, offset: nat, data: seq<byte>)
    requires env.Ok() && k in abs && Wrote(env, abs, abs', reply, k, offset, data)
    ensures reply == Answer(Error) || reply.Count?
  {
    hide Fit, Splice, ClustersFor, Times, WrittenNode, GapClosed, Holds;
  }

  lemma ResizeCommandTight(env: Env, abs: Table, abs': Table, reply: Reply, d: nat, name: seq<byte>, size: nat)
    requires env.Ok() && AllTight(abs, env.b) && ResizeStep(env, abs, abs', reply, d, name, size)
             && reply != Answer(Error)
    ensures AllTight(abs', env.b)
  {
    hide Resized, AllTight;
    if abs' != abs {
      var k :| Named(abs, d, name, k) && Resized(env, abs, abs', reply, k, size);
      ResizedReply(env, abs, abs', reply, k, size);
      ResizeKeepsTight(env, abs, abs', reply, k, size);
    }
  }

  lemma ResizedReply(env: Env, abs: Table, abs': Table, reply: Reply, k: nat, size: nat)
    requires env.Ok() && k in abs && Resized(env, abs, abs', reply, k, size)
    ensures reply == Answer(Error) || reply == Answer(Success)
  {
    hide Fit, ClustersFor, Times, TruncatedNode, Holds;
  }

  lemma MoveCommandTight(env: Env, abs: Table, cmd: Command, abs': Table, reply: Reply, d: nat)
    requires env.Ok() && AllTight(abs, env.b) && cmd.Move? && StepIn(env, abs, abs', reply, d, cmd)
    ensures AllTight(abs', env.b)
  {
    hide Leads, AllTight, MovedBetween, Movable, RenameStatus;
    if abs' != abs {
      var d2 :| Leads(abs, env.root, cmd.dir2, d2) && MoveStep(env, abs, abs', reply, d, cmd.name, d2, cmd.name2,
          cmd.exchange, cmd.noReplace);
      if reply == Answer(Success) {
        MoveKeepsTight(abs, abs', d, cmd.name, d2, cmd.name2, cmd.exchange, env.b);
      } else {
        var k :| Named(abs, d, cmd.name, k) && abs' == abs - {k};
        FewerTight(abs, {k}, env.b);
      }
    }
  }

  lemma {:induction false} TightUsed(abs: Table, b: nat)
    requires b > 0 && AllTight(abs, b)
    ensures Used(abs, b) == TotalNeed(abs, b)
    decreases |abs|
  {
    hide Holds, Need, AllTight;
    if abs != map[] {
      var k :| k in abs && Used(abs, b) == Holds(abs[k], b) + Used(abs - {k}, b);
      FewerTight(abs, {k}, b);
      TightUsed(abs - {k}, b);
      NeedWithout(abs, k, b);
      TightHolds(abs, k, b);
    }
  }

  // With tight chains the free clusters are all but those of number 0 and the root, one
  // for each directory, and max(1, ceil(size / b)) for each file, and number 1 unless it
  // is the root's.
  lemma TightFree(env: Env, abs: Table)
    requires env.Ok() && Native(env, abs) && AllTight(abs, env.b)
    ensures env.free + TotalNeed(abs, env.b) + (if env.root == 1 then 2 else 3) == env.n
  {
    hide Used, TotalNeed, AllTight;
    TightUsed(abs, env.b);
  }

  lemma TightHolds(abs: Table, k: nat, b: nat)
    requires b > 0 && AllTight(abs, b) && k in abs
    ensures Holds(abs[k], b) == Need(abs[k], b)
  {
    hide Times, ClustersFor, Holds;
    if abs[k].attr.IsDirectory() {
      DirectoryHolds(abs[k], b);
    } else {
      HoldsTimes(abs[k], ClustersFor(abs[k].attr.size, b), b);
    }
  }

  lemma DirectoryHolds(n: Node, b: nat)
    requires b > 0 && n.attr.IsDirectory()
    ensures Holds(n, b) == 1
  {
  }

  lemma {:induction false} NeedWithout(abs: Table, k: nat, b: nat)
    requires b > 0 && k in abs
    ensures TotalNeed(abs, b) == Need(abs[k], b) + TotalNeed(abs - {k}, b)
    decreases |abs|
  {
    hide Need;
    var l :| l in abs && TotalNeed(abs, b) == Need(abs[l], b) + TotalNeed(abs - {l}, b);
    if l != k {
      NeedWithout(abs - {l}, k, b);
      NeedWithout(abs - {k}, l, b);
      assert abs - {l} - {k} == abs - {k} - {l};
    }
  }
}
