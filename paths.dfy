/** Path building: newPathByAppendingPaths and the fixed recipes the
    catalog builds with it. */
module Paths {
  import opened Common
  import opened Text
  import opened SkyTypes

  predicate NoSlash(s: string)
  {
    '/' !in s
  }

  /** "/" followed by a segment that is given, nothing for a NULL one. */
  function Segment(p: Option<string>): string
  {
    if p.Some? then "/" + p.value else ""
  }

  /** The buffer size newPathByAppendingPaths computes: the root and every
      given segment, each with one extra byte (separator or final NUL). */
  function BufferSize(path: string, p1: Option<string>, p2: Option<string>, p3: Option<string>): nat
  {
    |path| + 1
      + (if p1.Some? then |p1.value| + 1 else 0)
      + (if p2.Some? then |p2.value| + 1 else 0)
      + (if p3.Some? then |p3.value| + 1 else 0)
  }

  /** The joined path: the root verbatim, then "/" and each non-NULL
      segment, in order. */
  function Joined(path: string, p1: Option<string>, p2: Option<string>, p3: Option<string>): (r: string)
    ensures |r| + 1 == BufferSize(path, p1, p2, p3)
  {
    path + Segment(p1) + Segment(p2) + Segment(p3)
  }

  /** A C string: no NUL byte inside it. */
  predicate NoNul(s: string)
  {
    forall i :: 0 <= i < |s| ==> s[i] != '\0'
  }

  /** The buffer holds `n` bytes of text and is zero from there on. */
  predicate Written(buf: seq<char>, n: nat)
  {
    n <= |buf| && NoNul(buf[..n]) && forall i :: n <= i < |buf| ==> buf[i] == '\0'
  }

  /** strlen of such a buffer is the number of bytes written. */
  lemma StrlenOfWritten(buf: seq<char>, n: nat)
    requires Written(buf, n)
    ensures Find(buf, '\0') == n
  {
    if n < |buf| {
      assert buf[n] == '\0';
    }
    forall i | 0 <= i < n
      ensures buf[i] != '\0'
    {
      assert buf[..n][i] == buf[i];
    }
  }

  /** strncpy of `s` to position `at` of the buffer. */
  method CopyAt(buf: array<char>, at: nat, s: string) returns (end: nat)
    requires at + |s| <= buf.Length
    modifies buf
    ensures end == at + |s|
    ensures buf[..end] == old(buf[..at]) + s
    ensures buf[end..] == old(buf[end..])
    ensures Written(old(buf[..]), at) && NoNul(s) ==> Written(buf[..], end)
  {
    ghost var before := buf[..];
    var i := 0;
    while i < |s|
      invariant 0 <= i <= |s|
      invariant buf[..at + i] == old(buf[..at]) + s[..i]
      invariant buf[at + i..] == old(buf[at + i..])
    {
      buf[at + i] := s[i];
      i := i + 1;
      assert buf[..at + i] == buf[..at + i - 1] + [s[i - 1]];
    }
    end := at + |s|;
    if Written(before, at) && NoNul(s) {
      WrittenAfterCopy(before, buf[..], at, s);
    }
  }

  /** Writing a C string at the end of the text keeps the buffer a
      NUL-terminated text followed by zeros. */
  lemma WrittenAfterCopy(before: seq<char>, after: seq<char>, at: nat, s: string)
    requires Written(before, at) && NoNul(s) && at + |s| <= |before| == |after|
    requires after[..at + |s|] == before[..at] + s
    requires after[at + |s|..] == before[at + |s|..]
    ensures Written(after, at + |s|)
  {
    var m := at + |s|;
    forall i | 0 <= i < m
      ensures after[..m][i] != '\0'
    {
      if i < at {
        assert before[..at][i] == before[i];
      } else {
        assert (before[..at] + s)[i] == s[i - at];
      }
    }
    forall i | at + |s| <= i < |after|
      ensures after[i] == '\0'
    {
      assert after[at + |s|..][i - (at + |s|)] == before[at + |s|..][i - (at + |s|)];
    }
  }

  /** One "if( pathN )" step: strncpy of "/" then of the segment, each at
      the end of the text so far. When the buffer held C-string text
      followed by zeros, it still does, so `end` is its strlen. */
  method AppendSegment(buf: array<char>, at: nat, p: Option<string>) returns (end: nat)
    requires at + |Segment(p)| <= buf.Length
    modifies buf
    ensures end == at + |Segment(p)|
    ensures buf[..end] == old(buf[..at]) + Segment(p)
    ensures buf[end..] == old(buf[end..])
    ensures Written(old(buf[..]), at) && (p.Some? ==> NoNul(p.value)) ==> Written(buf[..], end)
  {
    end := at;
    if p.Some? {
      end := CopyAt(buf, end, "/");
      end := CopyAt(buf, end, p.value);
      assert buf[..end] == old(buf[..at]) + "/" + p.value;
    }
  }

  /** Every argument is a C string. */
  predicate CStrings(path: string, p1: Option<string>, p2: Option<string>, p3: Option<string>)
  {
    NoNul(path) && (p1.Some? ==> NoNul(p1.value)) && (p2.Some? ==> NoNul(p2.value)) && (p3.Some? ==> NoNul(p3.value))
  }

  /** The copies of newPathByAppendingPaths into a zeroed buffer of the
      right size. Each step appends at the end of the text so far; for
      C-string arguments the buffer stays Written, so that position is its
      strlen (StrlenOfWritten), and the text ends in a NUL. */
  method FillPath(buf: array<char>, path: string, path1: Option<string>, path2: Option<string>, path3: Option<string>)
    returns (len: nat)
    requires buf.Length == |path| + |Segment(path1)| + |Segment(path2)| + |Segment(path3)| + 1
    requires forall i :: 0 <= i < buf.Length ==> buf[i] == '\0'
    modifies buf
    ensures len == buf.Length - 1 && buf[..len] == Joined(path, path1, path2, path3)
    ensures CStrings(path, path1, path2, path3) ==> Find(buf[..], '\0') == len
  {
    ghost var cStrings := CStrings(path, path1, path2, path3);
    len := CopyAt(buf, 0, path);
    assert cStrings ==> Written(buf[..], len);
    assert buf[..len] == path;
    len := AppendSegment(buf, len, path1);
    assert cStrings ==> Written(buf[..], len);
    assert buf[..len] == path + Segment(path1);
    len := AppendSegment(buf, len, path2);
    assert cStrings ==> Written(buf[..], len);
    assert buf[..len] == path + Segment(path1) + Segment(path2);
    len := AppendSegment(buf, len, path3);
    if cStrings {
      StrlenOfWritten(buf[..], len);
    }
  }

  /** newPathByAppendingPaths(path, path1, path2, path3): allocates exactly
      the computed size and copies into it; the buffer never overflows. */
  method NewPathByAppendingPaths(path: string, path1: Option<string>, path2: Option<string>, path3: Option<string>)
    returns (fullPath: string)
    ensures fullPath == Joined(path, path1, path2, path3)
    ensures |fullPath| == BufferSize(path, path1, path2, path3) - 1
  {
    var bufferSize := |path| + 1;
    if path1.Some? {
      bufferSize := bufferSize + |path1.value| + 1;
    }
    if path2.Some? {
      bufferSize := bufferSize + |path2.value| + 1;
    }
    if path3.Some? {
      bufferSize := bufferSize + |path3.value| + 1;
    }
    assert bufferSize == |path| + |Segment(path1)| + |Segment(path2)| + |Segment(path3)| + 1;
    // calloc: every byte starts as NUL
    var buf := new char[bufferSize](_ => '\0');
    var len := FillPath(buf, path, path1, path2, path3);
    fullPath := buf[..len];
  }

  // ----- reading a path back -----

  /** The components of a path, separated by '/'. */
  function Split(s: string): (parts: seq<string>)
    ensures |parts| >= 1
    decreases |s|
  {
    var n := Find(s, '/');
    if n == |s| then [s] else [s[..n]] + Split(s[n + 1..])
  }

  /** The segments that are given, in order. */
  function Present(ps: seq<Option<string>>): seq<string>
  {
    if ps == [] then []
    else if ps[0].Some? then [ps[0].value] + Present(ps[1..])
    else Present(ps[1..])
  }

  function Segments(ps: seq<Option<string>>): string
  {
    if ps == [] then "" else Segment(ps[0]) + Segments(ps[1..])
  }

  /** A '/' between two texts splits them apart, whatever either holds. */
  lemma {:induction false} SplitCons(a: string, b: string)
    ensures Split(a + "/" + b) == Split(a) + Split(b)
    decreases |a|, 1
  {
    var s := a + "/" + b;
    var n := Find(a, '/');
    assert s[n] == '/';
    forall i | 0 <= i < n
      ensures s[i] != '/'
    {
      assert s[i] == a[i];
    }
    FindAt(s, '/', n);
    if n == |a| {
      SplitConsWhole(a, b);
    } else {
      assert s[..n] == a[..n];
      assert s[n + 1..] == a[n + 1..] + "/" + b;
      SplitConsInner(s, a, b, n);
    }
  }

  lemma SplitConsWhole(a: string, b: string)
    requires Find(a, '/') == |a| && Find(a + "/" + b, '/') == |a|
    ensures Split(a + "/" + b) == Split(a) + Split(b)
  {
    var s := a + "/" + b;
    assert s[..|a|] == a;
    assert s[|a| + 1..] == b;
  }

  /** Concatenation regroups freely. */
  lemma ConcatAssoc<T>(x: seq<T>, y: seq<T>, z: seq<T>)
    ensures x + (y + z) == x + y + z
  {
  }

  /** One step of Split: the text before the first '/', then the rest. */
  lemma SplitAt(x: string, n: nat)
    requires Find(x, '/') == n < |x|
    ensures Split(x) == [x[..n]] + Split(x[n + 1..])
  {
  }

  lemma {:induction false} SplitConsInner(s: string, a: string, b: string, n: nat)
    requires n < |a| && Find(a, '/') == n && Find(s, '/') == n < |s|
    requires s[..n] == a[..n] && s[n + 1..] == a[n + 1..] + "/" + b
    ensures Split(s) == Split(a) + Split(b)
    decreases |a|, 0
  {
    var rest := a[n + 1..];
    SplitAt(s, n);
    SplitAt(a, n);
    SplitCons(rest, b);
    ConcatAssoc([a[..n]], Split(rest), Split(b));
  }




  /** Every given segment is free of '/'. */
  predicate SegmentsNoSlash(ps: seq<Option<string>>)
  {
    ps == [] || ((ps[0].Some? ==> NoSlash(ps[0].value)) && SegmentsNoSlash(ps[1..]))
  }

  lemma SplitWhole(head: string)
    requires NoSlash(head)
    ensures Split(head) == [head]
  {
    assert Find(head, '/') == |head|;
  }

  lemma {:induction false} SplitSegments(head: string, ps: seq<Option<string>>)
    requires SegmentsNoSlash(ps)
    ensures Split(head + Segments(ps)) == Split(head) + Present(ps)
    decreases |ps|
  {
    if ps == [] {
      assert head + Segments(ps) == head;
    } else if ps[0].None? {
      SplitSegmentsNone(head, ps);
    } else {
      SplitSegmentsSome(head, ps);
    }
  }

  lemma {:induction false} SplitSegmentsNone(head: string, ps: seq<Option<string>>)
    requires SegmentsNoSlash(ps) && ps != [] && ps[0].None?
    ensures Split(head + Segments(ps)) == Split(head) + Present(ps)
    decreases |ps|, 0
  {
    assert Segments(ps) == Segments(ps[1..]) by {
      assert Segment(ps[0]) == "";
    }
    assert Present(ps) == Present(ps[1..]);
    SplitSegments(head, ps[1..]);
  }

  lemma {:induction false} SplitSegmentsSome(head: string, ps: seq<Option<string>>)
    requires SegmentsNoSlash(ps) && ps != [] && ps[0].Some?
    ensures Split(head + Segments(ps)) == Split(head) + Present(ps)
    decreases |ps|, 0
  {
    var x, tail := ps[0].value, Segments(ps[1..]);
    assert head + Segments(ps) == head + "/" + (x + tail) by {
      assert Segments(ps) == "/" + x + tail;
    }
    SplitCons(head, x + tail);
    SplitSegments(x, ps[1..]);
    SplitWhole(x);
    assert Present(ps) == [x] + Present(ps[1..]);
  }

  lemma ThreeNoSlash(p1: Option<string>, p2: Option<string>, p3: Option<string>)
    requires p1.Some? ==> NoSlash(p1.value)
    requires p2.Some? ==> NoSlash(p2.value)
    requires p3.Some? ==> NoSlash(p3.value)
    ensures SegmentsNoSlash([p1, p2, p3])
  {
    var ps := [p1, p2, p3];
    assert ps[1..] == [p2, p3] && ps[1..][1..] == [p3] && ps[1..][1..][1..] == [];
    assert SegmentsNoSlash([]);
  }

  lemma ThreeSegments(p1: Option<string>, p2: Option<string>, p3: Option<string>)
    ensures Segments([p1, p2, p3]) == Segment(p1) + (Segment(p2) + Segment(p3))
  {
    var ps := [p1, p2, p3];
    assert ps[1..] == [p2, p3] && ps[1..][1..] == [p3] && ps[1..][1..][1..] == [];
    assert Segments([p3]) == Segment(p3) + Segments([]) == Segment(p3);
    assert Segments([p2, p3]) == Segment(p2) + Segments([p3]);
  }

  lemma JoinedSegments(path: string, p1: Option<string>, p2: Option<string>, p3: Option<string>)
    ensures Joined(path, p1, p2, p3) == path + Segments([p1, p2, p3])
  {
    var s1, s2, s3 := Segment(p1), Segment(p2), Segment(p3);
    calc {
      Joined(path, p1, p2, p3);
      path + s1 + s2 + s3;
      (path + s1) + (s2 + s3);
      path + (s1 + (s2 + s3));
      { ThreeSegments(p1, p2, p3); }
      path + Segments([p1, p2, p3]);
    }
  }

  /** The one-element list of a given segment, nothing for a NULL one. */
  function Given(p: Option<string>): seq<string>
  {
    if p.Some? then [p.value] else []
  }

  lemma PresentCons(p: Option<string>, ps: seq<Option<string>>)
    ensures Present([p] + ps) == Given(p) + Present(ps)
  {
    assert ([p] + ps)[1..] == ps;
  }

  lemma PresentThree(p1: Option<string>, p2: Option<string>, p3: Option<string>)
    ensures Present([p1, p2, p3]) == Given(p1) + Given(p2) + Given(p3)
  {
    calc {
      Present([p1, p2, p3]);
      { assert [p1, p2, p3] == [p1] + [p2, p3]; PresentCons(p1, [p2, p3]); }
      Given(p1) + Present([p2, p3]);
      { assert [p2, p3] == [p2] + [p3]; PresentCons(p2, [p3]); }
      Given(p1) + (Given(p2) + Present([p3]));
      { assert [p3] == [p3] + []; PresentCons(p3, []); }
      Given(p1) + (Given(p2) + (Given(p3) + Present([])));
      Given(p1) + Given(p2) + Given(p3);
    }
  }


  /** SplitJoined for one given segment. */
  lemma SplitOne(root: string, a: string)
    requires NoSlash(a)
    ensures Split(Joined(root, Some(a), None, None)) == Split(root) + [a]
  {
    SplitJoined(root, Some(a), None, None);
    assert Given(Some(a)) == [a];
  }

  /** SplitJoined for two given segments and an optional third. */
  lemma SplitTwo(root: string, a: string, b: string, c: Option<string>)
    requires NoSlash(a) && NoSlash(b) && (c.Some? ==> NoSlash(c.value))
    ensures Split(Joined(root, Some(a), Some(b), c)) == Split(root) + [a, b] + Given(c)
  {
    var sr, gc := Split(root), Given(c);
    calc {
      Split(Joined(root, Some(a), Some(b), c));
      { SplitJoined(root, Some(a), Some(b), c); }
      sr + Given(Some(a)) + Given(Some(b)) + gc;
      { assert Given(Some(a)) == [a] && Given(Some(b)) == [b]; }
      sr + [a] + [b] + gc;
      sr + [a, b] + gc;
    }
  }

  /** SplitJoined for an optional segment alone. */
  lemma SplitOptional(root: string, a: Option<string>)
    requires a.Some? ==> NoSlash(a.value)
    ensures Split(Joined(root, a, None, None)) == Split(root) + Given(a)
  {
    SplitJoined(root, a, None, None);
    assert Split(root) + Given(a) + Given(None) + Given(None) == Split(root) + Given(a);
  }

  /** Joining is undone by splitting at '/' when no segment contains a
      '/': the components of the root come back, then exactly the non-NULL
      segments, each checked on its own (a NULL path1 does not hide path2). */
  lemma SplitJoined(path: string, p1: Option<string>, p2: Option<string>, p3: Option<string>)
    requires p1.Some? ==> NoSlash(p1.value)
    requires p2.Some? ==> NoSlash(p2.value)
    requires p3.Some? ==> NoSlash(p3.value)
    ensures Split(Joined(path, p1, p2, p3)) == Split(path) + Given(p1) + Given(p2) + Given(p3)
  {
    var g1, g2, g3 := Given(p1), Given(p2), Given(p3);
    calc {
      Split(Joined(path, p1, p2, p3));
      { JoinedSegments(path, p1, p2, p3); }
      Split(path + Segments([p1, p2, p3]));
      { ThreeNoSlash(p1, p2, p3); SplitSegments(path, [p1, p2, p3]); }
      Split(path) + Present([p1, p2, p3]);
      { PresentThree(p1, p2, p3); }
      Split(path) + (g1 + g2 + g3);
      Split(path) + g1 + g2 + g3;
    }
  }


  // ----- recipes -----

  /** The 10-character record file name "%06d.txt". */
  function RecordFileName(id: int): (f: string)
    requires 0 <= id < 1000000
    ensures |f| == 10 && f[6..] == ".txt" && AllDigits(f[..6]) && NoSlash(f)
  {
    Pad(id, 6) + ".txt"
  }

  /** The directory an object list opens: root/const/ABRV/<type> with a
      filter, root/<type> without one (no type directory for
      SkyObjectNone). */
  function ObjectDirPath(root: string, abrv: Option<string>, t: DatabaseObjectType): (r: string)
    ensures abrv.Some? && NoSlash(abrv.value) ==>
      Split(r) == Split(root) + ["const", abrv.value] + Given(TypeDirectory(t))
    ensures abrv.None? ==> Split(r) == Split(root) + Given(TypeDirectory(t))
  {
    if abrv.Some? then
      var r := Joined(root, Some("const"), abrv, TypeDirectory(t));
      if NoSlash(abrv.value) then
        ConstNoSlash();
        SplitTwo(root, "const", abrv.value, TypeDirectory(t));
        r
      else r
    else
      SplitOptional(root, TypeDirectory(t));
      Joined(root, TypeDirectory(t), None, None)
  }

  lemma ConstNoSlash()
    ensures NoSlash("const")
  {
  }

  /** The file `object` opens: "const/ABRV" is joined first and passed as
      one segment. Lookup by identifier and listing agree on where records
      live: it is an entry of the directory the object list opens, for
      every category (SkyObjectNone included) and either filter. */
  function RecordPath(root: string, abrv: Option<string>, id: int, t: DatabaseObjectType): (r: string)
    requires 0 <= id < 1000000
    ensures r == ObjectDirPath(root, abrv, t) + "/" + RecordFileName(id)
  {
    if abrv.Some? then
      ListedFiltered(root, "const", abrv.value, TypeDirectory(t), RecordFileName(id));
      Joined(root, Some(Joined("const", abrv, None, None)), TypeDirectory(t), Some(RecordFileName(id)))
    else
      ListedUnfiltered(root, TypeDirectory(t), RecordFileName(id));
      Joined(root, TypeDirectory(t), Some(RecordFileName(id)), None)
  }

  /** The directory the constellation list opens: root/const. */
  function ConstDirPath(root: string): (r: string)
    ensures Split(r) == Split(root) + ["const"]
  {
    ConstNoSlash();
    SplitOne(root, "const");
    Joined(root, Some("const"), None, None)
  }

  /** The translation file of a constellation: root/const/ABRV/<lang>.tsl. */
  function TranslationPath(root: string, abrv: string, lang: SkyTranslate): (r: string)
    ensures NoSlash(abrv) ==> Split(r) == Split(root) + ["const", abrv, TranslationFile(lang)]
  {
    var f := TranslationFile(lang);
    var r := Joined(root, Some("const"), Some(abrv), Some(f));
    if NoSlash(abrv) then
      ConstNoSlash();
      SplitTwo(root, "const", abrv, Some(f));
      assert ["const", abrv] + Given(Some(f)) == ["const", abrv, f];
      r
    else r
  }

  /** A count file: root/<name>. */
  function CountPath(root: string, cntName: string): (r: string)
    ensures NoSlash(cntName) ==> Split(r) == Split(root) + [cntName]
  {
    var r := Joined(root, Some(cntName), None, None);
    if NoSlash(cntName) then
      SplitOne(root, cntName);
      r
    else r
  }

  /** The record file of a category: root/const/ABRV/<type>/NNNNNN.txt when
      filtered by constellation, root/<type>/NNNNNN.txt otherwise. */
  lemma RecordPathLayout(root: string, abrv: Option<string>, id: int, t: DatabaseObjectType)
    requires 0 <= id < 1000000 && t != SkyObjectNone
    ensures abrv.Some? ==>
      RecordPath(root, abrv, id, t) == root + "/const/" + abrv.value + "/" + TypeDirectory(t).value + "/" + RecordFileName(id)
    ensures abrv.None? ==>
      RecordPath(root, abrv, id, t) == root + "/" + TypeDirectory(t).value + "/" + RecordFileName(id)
  {
    var ty, f := TypeDirectory(t).value, RecordFileName(id);
    if abrv.Some? {
      var k := "const";
      assert "/" + k + "/" == "/const/";
      FilteredShape(root, k, abrv.value, ty, f);
    } else {
      UnfilteredShape(root, ty, f);
    }
  }

  lemma FilteredShape(root: string, k: string, a: string, ty: string, f: string)
    ensures Joined(root, Some(Joined(k, Some(a), None, None)), Some(ty), Some(f))
      == root + ("/" + k + "/") + a + "/" + ty + "/" + f
  {
    var c := Joined(k, Some(a), None, None);
    var m := "/" + k + "/";
    var x := root + m + a;
    JoinedOne(k, a);
    ConcatAssoc("/", k + "/", a);
    ConcatAssoc("/", k, "/");
    ConcatAssoc(root, m, a);
    ConcatAssoc(x, "/", ty);
    ConcatAssoc(x + "/" + ty, "/", f);
    assert Joined(root, Some(c), Some(ty), Some(f)) == root + ("/" + c) + ("/" + ty) + ("/" + f);
  }


  lemma UnfilteredShape(root: string, ty: string, f: string)
    ensures Joined(root, Some(ty), Some(f), None) == root + "/" + ty + "/" + f
  {
    assert Joined(root, Some(ty), Some(f), None) == root + ("/" + ty) + ("/" + f) + "";
  }

  /** A root with one segment is the two joined by '/'. */
  lemma JoinedOne(k: string, a: string)
    ensures Joined(k, Some(a), None, None) == k + "/" + a
  {
    assert Joined(k, Some(a), None, None) == k + ("/" + a) + "" + "";
  }

  /** Joining "k/a" as one segment, then ty and f, is joining k, a and ty,
      then f. */
  lemma ListedFiltered(root: string, k: string, a: string, ty: Option<string>, f: string)
    ensures Joined(root, Some(Joined(k, Some(a), None, None)), ty, Some(f))
      == Joined(root, Some(k), Some(a), ty) + "/" + f
  {
    var c := Joined(k, Some(a), None, None);
    SlashJoinedOne(k, a);
    assert root + ("/" + c) == root + ("/" + k) + ("/" + a);
    var t := Segment(ty);
    assert Joined(root, Some(c), ty, Some(f)) == root + ("/" + c) + t + ("/" + f);
    assert root + ("/" + c) + t + ("/" + f) == root + ("/" + c) + t + "/" + f;
  }

  lemma SlashJoinedOne(k: string, a: string)
    ensures "/" + Joined(k, Some(a), None, None) == ("/" + k) + ("/" + a)
  {
    assert Joined(k, Some(a), None, None) == k + ("/" + a) + "" + "";
  }

  lemma ListedUnfiltered(root: string, ty: Option<string>, f: string)
    ensures Joined(root, ty, Some(f), None) == Joined(root, ty, None, None) + "/" + f
  {
    var t := Segment(ty);
    assert Joined(root, ty, Some(f), None) == root + t + ("/" + f) + "";
    assert Joined(root, ty, None, None) == root + t + "" + "";
  }

  lemma TranslationPathLayout(root: string, abrv: string, lang: SkyTranslate)
    ensures TranslationPath(root, abrv, lang) == ConstDirPath(root) + "/" + abrv + "/" + TranslationFile(lang)
  {
    var f := TranslationFile(lang);
    assert TranslationPath(root, abrv, lang) == Joined(root, Some("const"), Some(abrv), Some(f));
    assert ConstDirPath(root) == Joined(root, Some("const"), None, None);
    JoinedTwoMore(root, "const", abrv, f);
  }

  /** Two more segments are two more "/"-separated parts. */
  lemma JoinedTwoMore(root: string, c: string, a: string, f: string)
    ensures Joined(root, Some(c), Some(a), Some(f)) == Joined(root, Some(c), None, None) + "/" + a + "/" + f
  {
    var d := root + ("/" + c);
    assert Joined(root, Some(c), None, None) == d + "" + "";
    assert Joined(root, Some(c), Some(a), Some(f)) == d + ("/" + a) + ("/" + f);
    ConcatAssoc(d, "/", a);
    ConcatAssoc(d + "/" + a, "/", f);
  }


}
