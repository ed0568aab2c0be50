// The bytes behind the ends of files, and what they mean for the contents: as long as they
// are zero, writes lay their data over the content and close gaps with zeros.

module Slacks {
  import opened Bytes
  import opened Codec
  import opened Geometry
  import opened Streams
  import opened Layouts
  import opened FatxFs
  import opened Files
  import opened FileOps
  import opened Contents
  import opened Renames
  import opened Machine

  ghost predicate AllClean(abs: Table) {
    forall k :: k in abs && !abs[k].attr.IsDirectory() ==> SlackZero(abs[k])
  }

  // ---- which commands spoil it ----

  // Resizing file n, total clusters being its own or free, leaves data in its last cluster.
  predicate CutSpoils(n: Node, total: nat, size: nat, b: nat)
    requires b > 0
  {
    && ClustersFor(size, b) <= total
    && exists i :: size <= i < n.attr.size && i < Times(ClustersFor(size, b), b) && i < |n.bytes| && n.bytes[i] != 0
  }

  // Writing to it stops short of the end of the data, having put some behind the end of the
  // file, whose size is not updated then.
  predicate SpillSpoils(n: Node, total: nat, offset: nat, data: seq<byte>, b: nat)
    requires b > 0
  {
    var end := if offset > n.attr.size then offset + 1 else n.attr.size;
    && ClustersFor(offset + |data|, b) > total
    && !(offset > n.attr.size && ClustersFor(offset + 1, b) > total)
    && exists j :: 0 <= j < |data| && end <= offset + j < Times(total, b) && data[j] != 0
  }

  ghost predicate SpoilsNode(env: Env, n: Node, cmd: Command)
    requires env.Ok()
  {
    && !n.attr.IsDirectory()
    && match cmd
       case WriteTo(_, _, offset, data) =>
         data != [] && offset + |data| < WORD && SpillSpoils(n, Holds(n, env.b) + env.free, offset, data, env.b)
       case Resize(_, _, size) => size < WORD && CutSpoils(n, Holds(n, env.b) + env.free, size, env.b)
       case _ => false
  }

  // cmd is about node k.
  ghost predicate Addressed(env: Env, abs: Table, cmd: Command, k: nat) {
    Located(abs, env.root, cmd.dir, cmd.name, k)
  }

  ghost predicate Spoils(env: Env, abs: Table, cmd: Command)
    requires env.Ok()
  {
    exists k :: k in abs && Addressed(env, abs, cmd, k) && SpoilsNode(env, abs[k], cmd)
  }

  // ---- single nodes ----

  lemma ResizedSlack(n: Node, total: nat, size: nat, b: nat)
    requires b > 0 && Sized(n) && SlackZero(n) && size < WORD && |n.bytes| <= Times(total, b)
    ensures SlackZero(ResizeOutcome(n, total, size, b).0) <==> !CutSpoils(n, total, size, b)
  {
    hide Times, ClustersFor;
    if ClustersFor(size, b) <= total {
      TruncatedSlack(n, size, b);
    }
  }

  lemma PartlySlack(m: Node, room: nat, offset: nat, data: seq<byte>)
    requires Sized(m) && SlackZero(m) && offset <= m.attr.size && offset < room && m.attr.size <= room
    requires |m.bytes| <= room
    ensures var count := Min(|data|, room - offset);
      SlackZero(m.(bytes := Splice(Fit(m.bytes, room), offset, data[..count]))) <==>
        forall j :: 0 <= j < |data| && m.attr.size <= offset + j < room ==> data[j] == 0
  {
    var count := Min(|data|, room - offset);
    var s := Splice(Fit(m.bytes, room), offset, data[..count]);
    if SlackZero(m.(bytes := s)) {
      forall j | 0 <= j < |data| && m.attr.size <= offset + j < room ensures data[j] == 0 {
        assert s[offset + j] == data[j];
      }
    }
  }

  lemma WroteSlack(n: Node, total: nat, offset: nat, data: seq<byte>, b: nat)
    requires b > 0 && Sized(n) && SlackZero(n) && offset + |data| < WORD && data != [] && |n.bytes| <= Times(total, b)
    ensures SlackZero(WriteOutcome(n, total, offset, data, b).0) <==> !SpillSpoils(n, total, offset, data, b)
  {
    hide Times, ClustersFor, Splice, WrittenNode, GapClosed, SlackZero;
    var room := Times(total, b);
    if ClustersFor(offset + |data|, b) <= total {
      WrittenKeepsSlack(n, offset, data, b);
    } else if offset > n.attr.size && ClustersFor(offset + 1, b) > total {
      LongerSlack(n, room);
    } else {
      var m := GapClosed(n, offset, b);
      GapClosedKeepsSlack(n, offset, b);
      GapBounds(n, total, offset, b);
      if room <= offset {
        LongerSlack(m, room);
      } else {
        PartlySlack(m, room, offset, data);
      }
    }
  }

  lemma LongerSlack(n: Node, room: nat)
    requires SlackZero(n) && |n.bytes| <= room
    ensures SlackZero(n.(bytes := Fit(n.bytes, room)))
  {
  }

  // A gap that could be closed leaves the file's end and chain within the room there is.
  lemma GapBounds(n: Node, total: nat, offset: nat, b: nat)
    requires b > 0 && Sized(n) && |n.bytes| <= Times(total, b) && offset + 1 < WORD
    requires offset > n.attr.size ==> ClustersFor(offset + 1, b) <= total
    ensures var m := GapClosed(n, offset, b);
      && m.attr.size == (if offset > n.attr.size then offset + 1 else n.attr.size)
      && m.attr.size <= |m.bytes| <= Times(total, b)
  {
    hide Times;
    if offset > n.attr.size {
      TimesOrder(ClustersFor(offset + 1, b), total, b);
    }
  }

  // ---- commands ----

  lemma UpdatedClean(abs: Table, k: nat, n: Node)
    requires AllClean(abs) && k in abs && !n.attr.IsDirectory()
    ensures AllClean(abs[k := n]) <==> SlackZero(n)
  {
    hide SlackZero;
    assert abs[k := n][k] == n;
  }

  // Chains are whole clusters.
  ghost predicate AllWhole(abs: Table, b: nat)
    requires b > 0
  {
    forall k :: k in abs && !abs[k].attr.IsDirectory() ==> |abs[k].bytes| == Times(Holds(abs[k], b), b)
  }

  lemma BytesFit(abs: Table, k: nat, b: nat, free: nat)
    requires b > 0 && AllWhole(abs, b) && k in abs && !abs[k].attr.IsDirectory()
    ensures |abs[k].bytes| <= Times(Holds(abs[k], b) + free, b)
  {
    hide Holds;
    TimesGrows(Holds(abs[k], b), Holds(abs[k], b) + free, b);
  }

  // The node that cmd is about, if any, is the only one.
  lemma AddressedOnce(env: Env, abs: Table, cmd: Command, d: nat, k: nat)
    requires UniqueNames(abs) && Leads(abs, env.root, cmd.dir, d) && Named(abs, d, cmd.name, k)
    ensures forall j :: Addressed(env, abs, cmd, j) <==> j == k
  {
    hide Leads, Named, UniqueNames;
    forall j | Addressed(env, abs, cmd, j) ensures j == k {
      var e :| Leads(abs, env.root, cmd.dir, e) && Named(abs, e, cmd.name, j);
      LeadsUnique(abs, env.root, cmd.dir, d, e);
      NamedOnce(abs, d, cmd.name, j, k);
    }
  }

  lemma NamedOnce(abs: Table, d: nat, name: seq<byte>, j: nat, k: nat)
    requires UniqueNames(abs) && Named(abs, d, name, j) && Named(abs, d, name, k)
    ensures j == k
  {
  }

  lemma AddressedNone(env: Env, abs: Table, cmd: Command, d: nat)
    requires UniqueNames(abs) && Leads(abs, env.root, cmd.dir, d) && !Taken(abs, d, cmd.name)
    ensures forall j :: !Addressed(env, abs, cmd, j)
  {
    assert forall j :: !Named(abs, d, cmd.name, j);
    hide Leads, Named, UniqueNames;
    forall j ensures !Addressed(env, abs, cmd, j) {
      if Addressed(env, abs, cmd, j) {
        var e :| Leads(abs, env.root, cmd.dir, e) && Named(abs, e, cmd.name, j);
        LeadsUnique(abs, env.root, cmd.dir, d, e);
      }
    }
  }

  // What writing and resizing do, in terms of the node they are about.
  lemma FileStep(env: Env, abs: Table, cmd: Command, abs': Table, reply: Reply, d: nat)
    requires env.Ok() && ProperTable(abs) && AllWhole(abs, env.b) && AllClean(abs) && (cmd.WriteTo? || cmd.Resize?)
    requires Leads(abs, env.root, cmd.dir, d) && StepIn(env, abs, abs', reply, d, cmd)
    ensures AllClean(abs') <==> !Spoils(env, abs, cmd)
  {
    hide Leads, UniqueNames, AllClean, AllWhole, Sized, SlackZero, WriteOutcome, ResizeOutcome, CutSpoils, SpillSpoils,
         Holds, Addressed;
    if !Taken(abs, d, cmd.name) {
      AddressedNone(env, abs, cmd, d);
    } else {
      var k :| Named(abs, d, cmd.name, k);
      NamedIn(abs, d, cmd.name);
      AddressedOnce(env, abs, cmd, d, k);
      FileStepAt(env, abs, cmd, abs', reply, d, k);
    }
  }

  lemma NamedIn(abs: Table, d: nat, name: seq<byte>)
    ensures forall k :: Named(abs, d, name, k) ==> k in abs
  {
  }

  lemma FileStepAt(env: Env, abs: Table, cmd: Command, abs': Table, reply: Reply, d: nat, k: nat)
    requires env.Ok() && ProperTable(abs) && AllWhole(abs, env.b) && AllClean(abs) && (cmd.WriteTo? || cmd.Resize?)
    requires Named(abs, d, cmd.name, k) && k in abs && StepIn(env, abs, abs', reply, d, cmd)
    ensures AllClean(abs') <==> !SpoilsNode(env, abs[k], cmd)
  {
    hide Leads, AllWhole, Sized, SlackZero, WriteOutcome, ResizeOutcome, CutSpoils, SpillSpoils, Holds;
    assert forall j :: Named(abs, d, cmd.name, j) ==> j == k;
    hide UniqueNames;
    var n := abs[k];
    if !n.attr.IsDirectory() {
      BytesFit(abs, k, env.b, env.free);
      var total := Holds(n, env.b) + env.free;
      match cmd {
        case WriteTo(_, name, offset, data) =>
          if data != [] && offset + |data| < WORD {
            WroteSlack(n, total, offset, data, env.b);
            OutcomeIsFile(n, total, offset, data, env.b);
            UpdatedClean(abs, k, WriteOutcome(n, total, offset, data, env.b).0);
          }
        case Resize(_, name, size) =>
          if size < WORD {
            ResizedSlack(n, total, size, env.b);
            ResizedIsFile(n, total, size, env.b);
            UpdatedClean(abs, k, ResizeOutcome(n, total, size, env.b).0);
          }
      }
    }
  }

  lemma OutcomeIsFile(n: Node, total: nat, offset: nat, data: seq<byte>, b: nat)
    requires b > 0
    ensures var m := WriteOutcome(n, total, offset, data, b).0;
      m.dir == n.dir && m.attr == n.attr.(size := m.attr.size)
  {
    hide Times, ClustersFor, Splice;
  }

  lemma ResizedIsFile(n: Node, total: nat, size: nat, b: nat)
    requires b > 0
    ensures var m := ResizeOutcome(n, total, size, b).0;
      m.dir == n.dir && m.attr == n.attr.(size := m.attr.size)
  {
    hide Times, ClustersFor;
  }

  lemma MadeClean(env: Env, abs: Table, abs': Table, reply: Reply, d: nat, name: seq<byte>, attributes: byte, now: Ts)
    requires env.Ok() && AllClean(abs) && MakeStep(env, abs, abs', reply, d, name, attributes, now)
    ensures AllClean(abs')
  {
  }

  lemma FewerClean(abs: Table, gone: set<nat>)
    requires AllClean(abs)
    ensures AllClean(abs - gone)
  {
    hide SlackZero;
  }

  lemma MovedClean(env: Env, abs: Table, cmd: Command, abs': Table, reply: Reply, d: nat)
    requires env.Ok() && AllClean(abs) && cmd.Move? && StepIn(env, abs, abs', reply, d, cmd)
    ensures AllClean(abs')
  {
    hide Leads, AllClean, MovedBetween, Movable, RenameStatus;
    if abs' != abs {
      var d2 :| Leads(abs, env.root, cmd.dir2, d2) && MoveStep(env, abs, abs', reply, d, cmd.name, d2, cmd.name2,
          cmd.exchange, cmd.noReplace);
      if reply == Answer(Success) {
        BetweenClean(abs, abs', d, cmd.name, d2, cmd.name2, cmd.exchange);
      } else {
        var k :| Named(abs, d, cmd.name, k) && abs' == abs - {k};
        FewerClean(abs, {k});
      }
    }
  }

  lemma BetweenClean(abs: Table, abs': Table, d1: nat, from: seq<byte>, d2: nat, to: seq<byte>, exchange: bool)
    requires AllClean(abs) && MovedBetween(abs, abs', d1, from, d2, to, exchange)
    ensures AllClean(abs')
  {
  }

  // A command keeps the slack of all files zero, exactly unless it cuts a file within
  // a cluster, or runs out of space in the middle of data behind the end of a file.
  lemma StepKeepsSlack(env: Env, abs: Table, cmd: Command, abs': Table, reply: Reply)
    requires env.Ok() && ProperTable(abs) && AllWhole(abs, env.b) && AllClean(abs) && Step(env, abs, cmd, abs', reply)
    ensures AllClean(abs') <==> !Spoils(env, abs, cmd)
  {
    hide Leads, MakeStep, WriteStep, ResizeStep, MoveStep, NothingIn, ReadBack, AllClean, ProperTable, AllWhole;
    if exists d :: Leads(abs, env.root, cmd.dir, d) {
      var d :| Leads(abs, env.root, cmd.dir, d) && StepIn(env, abs, abs', reply, d, cmd);
      match cmd {
        case MakeFile(_, name, now) => MadeClean(env, abs, abs', reply, d, name, 0, now);
        case MakeDir(_, name, now) => MadeClean(env, abs, abs', reply, d, name, ATTR_DIRECTORY, now);
        case ReadFrom(_, _, _, _) =>
        case WriteTo(_, _, _, _) => FileStep(env, abs, cmd, abs', reply, d);
        case Resize(_, _, _) => FileStep(env, abs, cmd, abs', reply, d);
        case Remove(_, name) =>
          if abs' != abs {
            var k :| Named(abs, d, name, k) && abs' == abs - {k};
            FewerClean(abs, {k});
          }
        case RemoveDir(_, name) =>
          if abs' != abs {
            var k :| Named(abs, d, name, k) && abs' == abs - {k};
            FewerClean(abs, {k});
          }
        case Move(_, _, _, _, _, _, _) => MovedClean(env, abs, cmd, abs', reply, d);
      }
    }
  }

  // ---- the contents ----

  // What cmd makes of the content of the file that it is about.
  function NewContent(cmd: Command, c: seq<byte>): seq<byte> {
    match cmd
    case WriteTo(_, _, offset, data) => Overlay(c, offset, data)
    case Resize(_, _, size) => Fit(c, size)
    case _ => c
  }

  // The command was carried out on a file.
  predicate Done(cmd: Command, reply: Reply) {
    (cmd.WriteTo? && reply == Count(|cmd.data|)) || (cmd.Resize? && reply == Answer(Success))
  }

  // Files keep their contents, but for the one that a write or truncation is about: that one
  // has the data laid over it, a gap before them filled with zeros, or is cut or padded with
  // zeros.  New files are empty.
  ghost predicate ContentStep(env: Env, abs: Table, cmd: Command, abs': Table, reply: Reply) {
    && (forall k :: k in abs && k in abs' && !abs[k].attr.IsDirectory() ==>
          Content(abs'[k]) == if Done(cmd, reply) && Addressed(env, abs, cmd, k) then NewContent(cmd, Content(abs[k]))
                              else Content(abs[k]))
    && forall k :: k in abs' && k !in abs ==> Content(abs'[k]) == []
  }

  lemma ResizedIsFit(n: Node, total: nat, size: nat, b: nat)
    requires b > 0 && Sized(n) && SlackZero(n) && size < WORD && ClustersFor(size, b) <= total
    ensures Content(ResizeOutcome(n, total, size, b).0) == Fit(Content(n), size)
  {
    hide Times, ClustersFor, Content, Fit;
    TruncatedContent(n, size, b);
  }

  lemma WroteIsOverlay(n: Node, total: nat, offset: nat, data: seq<byte>, b: nat)
    requires b > 0 && Sized(n) && SlackZero(n) && offset + |data| < WORD && data != []
    requires ClustersFor(offset + |data|, b) <= total
    ensures Content(WriteOutcome(n, total, offset, data, b).0) == Overlay(Content(n), offset, data)
  {
    hide Times, ClustersFor, Content, Overlay, WrittenNode;
    WrittenContent(n, offset, data, b);
  }

  // A write that gives the number of its bytes has found space for all of them.
  lemma CountMeansAll(n: Node, total: nat, offset: nat, data: seq<byte>, b: nat)
    requires b > 0 && data != [] && WriteOutcome(n, total, offset, data, b).1 == Count(|data|)
    ensures ClustersFor(offset + |data|, b) <= total
  {
    hide Times, ClustersFor, WrittenNode, GapClosed, Fit, Splice;
  }

  lemma SuccessMeansAll(n: Node, total: nat, size: nat, b: nat)
    requires b > 0 && ResizeOutcome(n, total, size, b).1 == Answer(Success)
    ensures ClustersFor(size, b) <= total
  {
    hide Times, ClustersFor, TruncatedNode, Fit;
  }

  lemma WroteContent(env: Env, abs: Table, abs': Table, reply: Reply, d: nat, k: nat, name: seq<byte>, offset: nat,
      data: seq<byte>)
    requires env.Ok() && UniqueNames(abs) && k in abs
    requires !abs[k].attr.IsDirectory() ==> Sized(abs[k]) && SlackZero(abs[k])
    requires Named(abs, d, name, k) && WriteStep(env, abs, abs', reply, d, name, offset, data)
    requires reply in {NotRun, Answer(FileNotFound), Count(|data|)}
    ensures abs'.Keys == abs.Keys && forall j :: j in abs && j != k ==> abs'[j] == abs[j]
    ensures if reply == Count(|data|) then Content(abs'[k]) == Overlay(Content(abs[k]), offset, data) else abs' == abs
  {
    hide WriteOutcome, Holds, Content, Overlay, Sized, SlackZero;
    assert forall j :: Named(abs, d, name, j) ==> j == k;
    hide UniqueNames;
    var n := abs[k];
    var total := Holds(n, env.b) + env.free;
    if !n.attr.IsDirectory() && data != [] && offset + |data| < WORD {
      OutcomeReply(n, total, offset, data, env.b);
      if reply == Count(|data|) {
        CountMeansAll(n, total, offset, data, env.b);
        WroteIsOverlay(n, total, offset, data, env.b);
      }
    }
  }

  lemma ResizedContent(env: Env, abs: Table, abs': Table, reply: Reply, d: nat, k: nat, name: seq<byte>, size: nat)
    requires env.Ok() && UniqueNames(abs) && k in abs
    requires !abs[k].attr.IsDirectory() ==> Sized(abs[k]) && SlackZero(abs[k])
    requires Named(abs, d, name, k) && ResizeStep(env, abs, abs', reply, d, name, size) && reply != Answer(Error)
    ensures abs'.Keys == abs.Keys && forall j :: j in abs && j != k ==> abs'[j] == abs[j]
    ensures if reply == Answer(Success) then Content(abs'[k]) == Fit(Content(abs[k]), size) else abs' == abs
  {
    hide ResizeOutcome, Holds, Content, Fit, Sized, SlackZero;
    assert forall j :: Named(abs, d, name, j) ==> j == k;
    hide UniqueNames;
    var n := abs[k];
    var total := Holds(n, env.b) + env.free;
    if !n.attr.IsDirectory() && size < WORD {
      ResizedReplies(n, total, size, env.b);
      if reply == Answer(Success) {
        SuccessMeansAll(n, total, size, env.b);
        ResizedIsFit(n, total, size, env.b);
      }
    }
  }

  lemma FileContent(env: Env, abs: Table, cmd: Command, abs': Table, reply: Reply, d: nat, k: nat)
    requires env.Ok() && ProperTable(abs) && AllClean(abs) && (cmd.WriteTo? || cmd.Resize?)
    requires Named(abs, d, cmd.name, k) && k in abs && StepIn(env, abs, abs', reply, d, cmd) && !RanOut(cmd, reply)
    ensures abs'.Keys == abs.Keys && forall j :: j in abs && j != k ==> abs'[j] == abs[j]
    ensures if Done(cmd, reply) then Content(abs'[k]) == NewContent(cmd, Content(abs[k])) else abs' == abs
  {
    hide WriteStep, ResizeStep, UniqueNames, Content, Overlay, Fit, SlackZero, Sized;
    match cmd {
      case WriteTo(_, name, offset, data) => WroteContent(env, abs, abs', reply, d, k, name, offset, data);
      case Resize(_, name, size) => ResizedContent(env, abs, abs', reply, d, k, name, size);
    }
  }

  lemma OutcomeReply(n: Node, total: nat, offset: nat, data: seq<byte>, b: nat)
    requires b > 0
    ensures var reply := WriteOutcome(n, total, offset, data, b).1; reply == Answer(Error) || reply.Count?
  {
    hide Times, ClustersFor, WrittenNode, GapClosed, Fit, Splice;
  }

  lemma ResizedReplies(n: Node, total: nat, size: nat, b: nat)
    requires b > 0
    ensures var reply := ResizeOutcome(n, total, size, b).1; reply == Answer(Error) || reply == Answer(Success)
  {
    hide Times, ClustersFor, TruncatedNode, Fit;
  }

  lemma FileContents(env: Env, abs: Table, cmd: Command, abs': Table, reply: Reply, d: nat)
    requires env.Ok() && ProperTable(abs) && AllClean(abs) && (cmd.WriteTo? || cmd.Resize?)
    requires Leads(abs, env.root, cmd.dir, d) && StepIn(env, abs, abs', reply, d, cmd) && !RanOut(cmd, reply)
    ensures ContentStep(env, abs, cmd, abs', reply)
  {
    hide Leads, UniqueNames, AllClean, Sized, WriteOutcome, ResizeOutcome, Holds, Addressed, Content, NewContent;
    if Taken(abs, d, cmd.name) {
      var k :| Named(abs, d, cmd.name, k);
      NamedIn(abs, d, cmd.name);
      AddressedOnce(env, abs, cmd, d, k);
      FileContent(env, abs, cmd, abs', reply, d, k);
    } else {
      AddressedNone(env, abs, cmd, d);
    }
  }

  lemma MadeContents(env: Env, abs: Table, cmd: Command, abs': Table, reply: Reply, d: nat, name: seq<byte>,
      attributes: byte, now: Ts)
    requires env.Ok() && MakeStep(env, abs, abs', reply, d, name, attributes, now) && !Done(cmd, reply)
    ensures ContentStep(env, abs, cmd, abs', reply)
  {
    hide Addressed;
  }

  lemma FewerContents(env: Env, abs: Table, cmd: Command, gone: set<nat>, reply: Reply)
    requires !Done(cmd, reply)
    ensures ContentStep(env, abs, cmd, abs - gone, reply)
  {
    hide Addressed, Content;
  }

  lemma MovedContents(env: Env, abs: Table, cmd: Command, abs': Table, reply: Reply, d: nat)
    requires env.Ok() && cmd.Move? && StepIn(env, abs, abs', reply, d, cmd)
    ensures ContentStep(env, abs, cmd, abs', reply)
  {
    hide Leads, MovedBetween, Movable, RenameStatus, ContentStep, Addressed;
    FewerContents(env, abs, cmd, {}, reply);
    assert abs - {} == abs;
    if abs' != abs {
      var d2 :| Leads(abs, env.root, cmd.dir2, d2) && MoveStep(env, abs, abs', reply, d, cmd.name, d2, cmd.name2,
          cmd.exchange, cmd.noReplace);
      if reply == Answer(Success) {
        BetweenContents(env, abs, cmd, abs', reply, d, cmd.name, d2, cmd.name2, cmd.exchange);
      } else {
        var k :| Named(abs, d, cmd.name, k) && abs' == abs - {k};
        FewerContents(env, abs, cmd, {k}, reply);
      }
    }
  }

  lemma BetweenContents(env: Env, abs: Table, cmd: Command, abs': Table, reply: Reply, d1: nat, from: seq<byte>,
      d2: nat, to: seq<byte>, exchange: bool)
    requires MovedBetween(abs, abs', d1, from, d2, to, exchange) && !Done(cmd, reply)
    ensures ContentStep(env, abs, cmd, abs', reply)
  {
    hide Addressed;
  }

  // On files with zero slack every command that does not run out of space does to the
  // contents what one expects.
  lemma StepContents(env: Env, abs: Table, cmd: Command, abs': Table, reply: Reply)
    requires env.Ok() && ProperTable(abs) && AllClean(abs) && Step(env, abs, cmd, abs', reply) && !RanOut(cmd, reply)
    ensures ContentStep(env, abs, cmd, abs', reply)
  {
    hide Leads, MakeStep, WriteStep, ResizeStep, MoveStep, NothingIn, ReadBack, AllClean, ProperTable, ContentStep;
    FewerContents(env, abs, cmd, {}, NotRun);
    assert abs - {} == abs;
    if exists d :: Leads(abs, env.root, cmd.dir, d) {
      var d :| Leads(abs, env.root, cmd.dir, d) && StepIn(env, abs, abs', reply, d, cmd);
      match cmd {
        case MakeFile(_, name, now) => MadeContents(env, abs, cmd, abs', reply, d, name, 0, now);
        case MakeDir(_, name, now) => MadeContents(env, abs, cmd, abs', reply, d, name, ATTR_DIRECTORY, now);
        case ReadFrom(_, _, _, _) => FewerContents(env, abs, cmd, {}, reply);
        case WriteTo(_, _, _, _) => FileContents(env, abs, cmd, abs', reply, d);
        case Resize(_, _, _) => FileContents(env, abs, cmd, abs', reply, d);
        case Remove(_, name) => RemovedContents(env, abs, cmd, abs', reply, d, name);
        case RemoveDir(_, name) => RemovedContents(env, abs, cmd, abs', reply, d, name);
        case Move(_, _, _, _, _, _, _) => MovedContents(env, abs, cmd, abs', reply, d);
      }
    }
  }

  lemma RemovedContents(env: Env, abs: Table, cmd: Command, abs': Table, reply: Reply, d: nat, name: seq<byte>)
    requires !Done(cmd, reply) && (abs' == abs || exists k :: Named(abs, d, name, k) && abs' == abs - {k})
    ensures ContentStep(env, abs, cmd, abs', reply)
  {
    hide ContentStep;
    if abs' == abs {
      FewerContents(env, abs, cmd, {}, reply);
      assert abs - {} == abs;
    } else {
      var k :| Named(abs, d, name, k) && abs' == abs - {k};
      FewerContents(env, abs, cmd, {k}, reply);
    }
  }
}
