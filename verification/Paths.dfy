// libfatx/ext.c: splitting a path into its directory and its last component.

module Paths {
  import Memrchr

  type Text = seq<bv8>

  const SLASH: bv8 := 0x2f
  const DOT: bv8 := 0x2e
  const MAXPATHLEN := 1024

  // ---- the reference: a path's components, read from the left ----

  function Closed(cur: Text): seq<Text> {
    if cur == [] then [] else [cur]
  }

  // The components of the rest of a path when cur has been read of the current one.
  function Scan(p: Text, cur: Text): seq<Text> {
    if p == [] then Closed(cur)
    else if p[0] == SLASH then Closed(cur) + Scan(p[1..], [])
    else Scan(p[1..], cur + [p[0]])
  }

  function Components(p: Text): seq<Text> {
    Scan(p, [])
  }

  lemma {:induction false} ScanSplit(p: Text, q: Text, cur: Text)
    ensures Scan(p + [SLASH] + q, cur) == Scan(p, cur) + Scan(q, [])
  {
    if p == [] {
      assert ([] + [SLASH] + q)[1..] == q;
      assert Scan(p + [SLASH] + q, cur) == Closed(cur) + Scan(q, []);
    } else {
      assert (p + [SLASH] + q)[1..] == p[1..] + [SLASH] + q;
      ScanSplit(p[1..], q, if p[0] == SLASH then [] else cur + [p[0]]);
      if p[0] == SLASH {
        assert Scan(p + [SLASH] + q, cur) == Closed(cur) + (Scan(p[1..], []) + Scan(q, []));
      }
    }
  }

  lemma {:induction false} ScanName(p: Text, cur: Text)
    requires SLASH !in p
    ensures Scan(p, cur) == Closed(cur + p)
  {
    if p != [] {
      ScanName(p[1..], cur + [p[0]]);
      assert cur + [p[0]] + p[1..] == cur + p;
    } else {
      assert cur + p == cur;
    }
  }

  // ---- the pieces of a path, found from the right ----

  // p[..n] without its trailing slashes, and without its last component.
  function StripSlashes(p: Text, n: nat): (m: nat)
    requires n <= |p|
    ensures m <= n && (m > 0 ==> p[m - 1] != SLASH) && forall i :: m <= i < n ==> p[i] == SLASH
  {
    if n > 0 && p[n - 1] == SLASH then StripSlashes(p, n - 1) else n
  }

  function StripName(p: Text, n: nat): (m: nat)
    requires n <= |p|
    ensures m <= n && (m > 0 ==> p[m - 1] == SLASH) && forall i :: m <= i < n ==> p[i] != SLASH
  {
    if n > 0 && p[n - 1] != SLASH then StripName(p, n - 1) else n
  }

  function End(p: Text): nat { StripSlashes(p, |p|) }

  function Start(p: Text): nat { StripName(p, End(p)) }

  function DirEnd(p: Text): nat { StripSlashes(p, Start(p)) }

  // ---- basename ----

  datatype Name = TooLong | Name(text: Text)

  function Basename(p: Text): Name {
    if p == [] then Name([DOT])
    else if End(p) == 0 then Name([SLASH])
    else if End(p) - Start(p) + 1 > MAXPATHLEN then TooLong
    else Name(p[Start(p)..End(p)])
  }

  // ext_basename; endp is the index of the last byte that counts
  method ExtBasename(path: Text) returns (r: Name)
    ensures r == Basename(path)
  {
    if path == [] {
      return Name([DOT]);
    }
    var endp: nat := |path| - 1;
    while endp > 0 && path[endp] == SLASH
      invariant endp < |path| && StripSlashes(path, endp + 1) == End(path)
    {
      endp := endp - 1;
    }
    if endp == 0 && path[endp] == SLASH {
      assert StripSlashes(path, 0) == End(path);
      return Name([SLASH]);
    }
    assert End(path) == endp + 1;
    var startp: nat := endp;
    while startp > 0 && path[startp - 1] != SLASH
      invariant startp <= endp && StripName(path, startp) == Start(path)
    {
      startp := startp - 1;
    }
    if endp - startp + 2 > MAXPATHLEN {
      return TooLong;
    }
    return Name(path[startp..endp + 1]);
  }

  // ---- dirname ----

  function Dirname(p: Text): Text {
    if End(p) == 0 then (if p == [] then [DOT] else if |p| == 2 then [SLASH, SLASH] else [SLASH])
    else if Start(p) == 0 then [DOT]
    else if DirEnd(p) == 0 then (if Start(p) == 2 then [SLASH, SLASH] else [SLASH])
    else p[..DirEnd(p)]
  }

  // The text in a buffer, up to its terminator.
  predicate Holds(buf: array<bv8>, p: Text)
    reads buf
  {
    |p| < buf.Length && buf[..|p|] == p && buf[|p|] == 0 && 0 !in p
  }

  // The last slash of p[..m] among those bytes of p[..n] that memrchr compares.
  function LastSeen(p: Text, n: nat, addr: nat, wide: bool, m: nat): (r: int)
    requires m <= n <= |p|
    ensures -1 <= r < m && (r >= 0 ==> p[r] == SLASH && Memrchr.Visible(n, addr, wide, r))
    ensures forall j :: r < j < m && Memrchr.Visible(n, addr, wide, j) ==> p[j] != SLASH
  {
    if m == 0 then -1
    else if p[m - 1] == SLASH && Memrchr.Visible(n, addr, wide, m - 1) then m - 1
    else LastSeen(p, n, addr, wide, m - 1)
  }

  // The slash that ext_dirname takes for the one before the last component.  Where the path
  // ends in a slash it is looked for with memrchr.
  function SlashFound(p: Text, addr: nat, wide: bool): (r: int)
    ensures -1 <= r < |p| && (r >= 0 ==> p[r] == SLASH)
  {
    var n := End(p);
    if n == |p| then Start(p) - 1 else if n == 0 then |p| - 1 else LastSeen(p, n, addr, wide, n)
  }

  // Where the path is cut for a slash.
  function Cut(p: Text, last: nat): (cut: nat)
    requires last < |p| && p[last] == SLASH
    ensures cut <= last + 1 || (last == 0 && cut == 1)
  {
    var runp := StripSlashes(p, last);
    if runp == 0 then (if last == 1 then 2 else 1) else runp
  }

  // What ext_dirname answers, the text in the buffer lying at address addr.
  function Answer(p: Text, addr: nat, wide: bool): Text {
    var last := SlashFound(p, addr, wide);
    if last == -1 then [DOT] else p[..Cut(p, last)]
  }

  // The slash it takes is as good as the right one: there is no choice, or it is in the same
  // run of slashes and agrees about a leading pair, or it finds none where the directory is
  // "." anyway.
  predicate SeenEnough(p: Text, addr: nat, wide: bool) {
    var n, l := End(p), Start(p) - 1;
    || n == |p| || n == 0 || l == -1
    || var r := LastSeen(p, n, addr, wide, n);
       if r == -1 then StripSlashes(p, l) == 1 && p[0] == DOT
       else StripSlashes(p, r) == StripSlashes(p, l) && (StripSlashes(p, l) == 0 ==> (r == 1 <==> l == 1))
  }

  lemma {:induction false} StartIsLastSlash(p: Text, n: nat)
    requires n <= |p|
    ensures Memrchr.LastIndex(p, n, SLASH) == StripName(p, n) - 1
  {
    if n > 0 && p[n - 1] != SLASH { StartIsLastSlash(p, n - 1); }
  }

  // strlen
  method StringLength(buf: array<bv8>, ghost p: Text) returns (len: nat)
    requires Holds(buf, p)
    ensures len == |p|
  {
    forall i | 0 <= i < |p| ensures buf[i] != 0 {
      assert buf[i] == buf[..|p|][i];
    }
    len := 0;
    while buf[len] != 0
      invariant len <= |p|
      decreases |p| - len
    {
      len := len + 1;
    }
  }

  // the two loops that step back over slashes
  method BackOverSlashes(buf: array<bv8>, ghost p: Text, from: nat) returns (runp: nat)
    requires Holds(buf, p) && from <= |p|
    ensures runp == StripSlashes(p, from)
  {
    runp := from;
    while runp != 0
      invariant runp <= from && StripSlashes(p, runp) == StripSlashes(p, from)
    {
      assert buf[runp - 1] == buf[..|p|][runp - 1] == p[runp - 1];
      if buf[runp - 1] != SLASH {
        break;
      }
      runp := runp - 1;
    }
  }

  // the slash where the path is to be cut
  method LastSlash(buf: array<bv8>, ghost p: Text, addr: nat, wide: bool) returns (last: int)
    requires Holds(buf, p)
    ensures last == SlashFound(p, addr, wide)
  {
    hide Memrchr.LastIndex, Memrchr.Visible;
    var len := StringLength(buf, p);
    last := Memrchr.LastIndex(buf[..len], len, SLASH);
    StartIsLastSlash(p, |p|);
    if last != -1 && last != 0 && last + 1 == len {
      var runp := BackOverSlashes(buf, p, last);
      assert runp == End(p);
      if runp != 0 {
        last := Memrchr.Search(buf[..len], runp, addr, SLASH, wide);
      }
    }
  }

  // ext_dirname; the path is cut short in its buffer, or dot says that "." is the answer.
  method ExtDirname(buf: array<bv8>, ghost p: Text, addr: nat, wide: bool) returns (dot: bool)
    requires Holds(buf, p)
    modifies buf
    ensures dot ==> Answer(p, addr, wide) == [DOT] && buf[..] == old(buf[..])
    ensures !dot ==> Holds(buf, Answer(p, addr, wide))
    // that is the directory of the path if and only if enough slashes are seen
    ensures Answer(p, addr, wide) == Dirname(p) <==> SeenEnough(p, addr, wide)
  {
    hide SlashFound, Dirname, SeenEnough;
    var last := LastSlash(buf, p, addr, wide);
    AnswerIsDirname(p, addr, wide);
    if last == -1 {
      return true;
    }
    var runp := BackOverSlashes(buf, p, last);
    if runp == 0 {
      if last == 1 {
        last := last + 1;
      } else {
        last := 1;
      }
    } else {
      last := runp;
    }
    buf[last] := 0;
    assert buf[..last] == p[..last];
    return false;
  }

  lemma DirnameCut(p: Text)
    requires p != [] && (End(p) == 0 || Start(p) > 0)
    ensures var l := (if End(p) == 0 then |p| else Start(p)) - 1; p[l] == SLASH && Dirname(p) == p[..Cut(p, l)]
  {
  }

  // Two slashes give the same directory exactly if they are in the same run of slashes, and
  // in a leading run both or none of them is the second byte.
  lemma SameCut(p: Text, r: nat, l: nat)
    requires r <= l < |p| && p[r] == SLASH && p[l] == SLASH
    ensures p[..Cut(p, r)] == p[..Cut(p, l)] <==>
            StripSlashes(p, r) == StripSlashes(p, l) && (StripSlashes(p, l) == 0 ==> (r == 1 <==> l == 1))
  {
    assert |p[..Cut(p, r)]| == Cut(p, r) && |p[..Cut(p, l)]| == Cut(p, l);
  }

  // With the 64-bit mask the answer is always the directory; with the 32-bit one exactly if
  // the search sees a slash that is as good as the right one.
  lemma AnswerIsDirname(p: Text, addr: nat, wide: bool)
    ensures Answer(p, addr, wide) == Dirname(p) <==> SeenEnough(p, addr, wide)
    ensures wide ==> SeenEnough(p, addr, wide)
  {
    var n, l := End(p), Start(p) - 1;
    if p != [] && (n == 0 || l >= 0) {
      DirnameCut(p);
    }
    if n != |p| && n != 0 {
      var r := LastSeen(p, n, addr, wide, n);
      if l >= 0 {
        if r >= 0 {
          SameCut(p, r, l);
        }
      }
    }
  }

  // A path that the 32-bit search cuts at the wrong slash: eleven letters between slashes,
  // three more, and a slash at the end.  The answer is the root directory.
  lemma WrongDirname(c: bv8)
    requires c != SLASH
    ensures var name := [c, c, c, c, c, c, c, c, c, c, c]; var p := [SLASH] + name + [SLASH, c, c, c, SLASH];
      Answer(p, 0, false) == [SLASH] && Dirname(p) == [SLASH] + name
  {
    var name := [c, c, c, c, c, c, c, c, c, c, c];
    var p := [SLASH] + name + [SLASH, c, c, c, SLASH];
    assert StripSlashes(p, 16) == 16 == End(p);
    assert StripName(p, 13) == 13 == Start(p);
    assert StripSlashes(p, 12) == 12 == DirEnd(p);
    assert p[..12] == [SLASH] + name;
    var r := LastSeen(p, 16, 0, false, 16);
    assert Memrchr.Visible(16, 0, false, 0) && !Memrchr.Visible(16, 0, false, 12);
    assert r == 0;
  }

  // ---- splitting and rejoining ----

  lemma {:induction false} OnlySlashes(p: Text)
    requires forall i :: 0 <= i < |p| ==> p[i] == SLASH
    ensures Components(p) == []
  {
    if p != [] { OnlySlashes(p[1..]); }
  }

  // Trailing slashes add no component.
  lemma TrailingSlashes(p: Text, n: nat)
    requires n <= |p| && forall i :: n <= i < |p| ==> p[i] == SLASH
    ensures Components(p) == Components(p[..n])
  {
    if n < |p| {
      assert p == p[..n] + [SLASH] + p[n + 1..];
      ScanSplit(p[..n], p[n + 1..], []);
      OnlySlashes(p[n + 1..]);
    } else {
      assert p[..n] == p;
    }
  }

  lemma CutLast(p: Text, b: nat, e: nat)
    requires 0 < b < e <= |p| && p[b - 1] == SLASH && SLASH !in p[b..e]
    requires forall i :: e <= i < |p| ==> p[i] == SLASH
    ensures Components(p) == Components(p[..b - 1]) + [p[b..e]]
  {
    hide Scan;
    TrailingSlashes(p, e);
    assert p[..e] == p[..b - 1] + [SLASH] + p[b..e];
    ScanSplit(p[..b - 1], p[b..e], []);
    ScanName(p[b..e], []);
    assert [] + p[b..e] == p[b..e];
  }

  // Without trailing slashes, what is behind the last slash is the last component.
  lemma LastComponent(p: Text)
    requires End(p) > 0
    ensures Components(p) == (if Start(p) == 0 then [] else Components(p[..Start(p) - 1])) + [p[Start(p)..End(p)]]
  {
    hide Scan, Components;
    var b, e := Start(p), End(p);
    assert SLASH !in p[b..e];
    if b > 0 {
      CutLast(p, b, e);
    } else {
      TrailingSlashes(p, e);
      OneName(p[..e]);
      assert p[..e] == p[0..e];
    }
  }

  lemma OneName(p: Text)
    requires SLASH !in p && p != []
    ensures Components(p) == [p]
  {
    ScanName(p, []);
    assert [] + p == p;
  }

  // The base name of any path is its last component, "." or "/" where there is none, and
  // refused if it has 1024 bytes or more.
  lemma BasenameIsLast(p: Text)
    ensures Basename(p)
         == if p == [] then Name([DOT])
            else if Components(p) == [] then Name([SLASH])
            else var last := Components(p)[|Components(p)| - 1]; if |last| >= 1024 then TooLong else Name(last)
  {
    hide Scan, Components;
    NoComponents(p);
    if End(p) > 0 {
      LastComponent(p);
    }
  }

  // The directory of any path with components has all of them but the last, and starts at
  // the root if the path does; of a name alone it is ".".
  lemma DirnameIsRest(p: Text)
    requires Components(p) != []
    ensures p != [] && Dirname(p) != [] && (Dirname(p)[0] == SLASH <==> p[0] == SLASH)
    ensures if p[0] != SLASH && |Components(p)| == 1 then Dirname(p) == [DOT]
            else Components(Dirname(p)) == Components(p)[..|Components(p)| - 1]
  {
    hide Scan, Components;
    NoComponents(p);
    LastComponent(p);
    var b := Start(p);
    if b > 0 {
      RestComponents(p);
      var all := Components(p);
      assert Components(p[..b - 1]) == all[..|all| - 1];
      if p[0] != SLASH {
        assert p[..b - 1][0] == p[0];
        NoComponents(p[..b - 1]);
      }
    }
  }

  // What is before the last slash has the components of the directory.
  lemma RestComponents(p: Text)
    requires End(p) > 0 && Start(p) > 0
    ensures Components(p[..Start(p) - 1]) == Components(Dirname(p))
  {
    hide Scan, Components;
    var b, d := Start(p), DirEnd(p);
    assert d <= b - 1;
    TrailingSlashes(p[..b - 1], d);
    assert p[..b - 1][..d] == p[..d];
    if d == 0 {
      assert p[..0] == [];
      OnlySlashes([]);
      OnlySlashes(Dirname(p));
    }
  }

  // An absolute path that has components is its directory and its last component again,
  // whatever slashes are repeated or trail.
  lemma SplitRejoins(p: Text)
    requires p != [] && p[0] == SLASH && Components(p) != [] && Basename(p) != TooLong
    ensures Components(Dirname(p)) + [Basename(p).text] == Components(p)
  {
    hide Scan, Components, Dirname;
    NoComponents(p);
    LastComponent(p);
    RestComponents(p);
  }

  // Only an empty path and paths of slashes have no components.
  lemma NoComponents(p: Text)
    ensures Components(p) == [] <==> End(p) == 0
  {
    var e, b := End(p), Start(p);
    if e == 0 {
      OnlySlashes(p);
    } else {
      TrailingSlashes(p, e);
      var q := p[..e];
      ScanName(q[b..], []);
      assert [] + q[b..] == q[b..];
      if b > 0 {
        assert q == q[..b - 1] + [SLASH] + q[b..];
        ScanSplit(q[..b - 1], q[b..], []);
      } else {
        assert q[b..] == q;
      }
    }
  }
}
