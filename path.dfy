/** File-system paths (lib/filesystem/src/path.rs).  A `Path` wraps a string;
  * its components are read off by an iterator that walks the string one
  * `/`-separated segment at a time, and paths grow by pushing components.
  *
  * As written, pushing a child appends its name with no separator,
  * `relative_from` returns the prefix it was given, and the iterator's index
  * counts bytes while its walk counts characters.  `PushedFixed`,
  * `RelativeFromFixed` and the character-indexed `ComponentsFrom` are the
  * corrected operations; the last agrees with the source on ASCII text. */
module Paths {
  import opened Common
  import Io

  /** `Component`. */
  datatype Component = Root | Parent | Current | Child(name: string)

  // ---------------------------------------------------------------------------
  // Components

  /** No `/` in `s[i..j]`. */
  predicate SlashFree(s: string, i: nat, j: nat)
    requires i <= j <= |s|
  {
    forall k :: i <= k < j ==> s[k] != '/'
  }

  /** The end of the segment starting at `i`: the next `/` or the end of `s`. */
  function SegEnd(s: string, i: nat): (e: nat)
    requires i <= |s|
    ensures i <= e <= |s| && (e < |s| ==> s[e] == '/')
    ensures SlashFree(s, i, e)
    decreases |s| - i
  {
    if i == |s| || s[i] == '/' then i else SegEnd(s, i + 1)
  }

  /** Any index that ends a slash-free run from `i` is the segment's end. */
  lemma {:induction false} SegEndIs(s: string, i: nat, j: nat)
    requires i <= j <= |s| && (j < |s| ==> s[j] == '/')
    requires SlashFree(s, i, j)
    ensures SegEnd(s, i) == j
    decreases |s| - i
  {
    if i < j {
      SegEndIs(s, i + 1, j);
    }
  }

  /** The variant a segment maps to. */
  function Classify(segment: string): (c: Component)
    ensures c.Child? <==> segment != "" && segment != "." && segment != ".."
    ensures c.Child? ==> c.name == segment
    ensures c == Root <==> segment == ""
  {
    if segment == "" then Root
    else if segment == "." then Current
    else if segment == ".." then Parent
    else Child(segment)
  }

  /** The components the iterator yields from index `i` on. */
  function ComponentsFrom(s: string, i: nat): (r: seq<Component>)
    decreases |s| - i
  {
    if i >= |s| then []
    else
      var e := SegEnd(s, i);
      [Classify(s[i..e])] + ComponentsFrom(s, e + 1)
  }

  /** One step of the iteration. */
  lemma ComponentsStep(s: string, i: nat)
    requires i < |s|
    ensures ComponentsFrom(s, i) == [Classify(s[i..SegEnd(s, i)])] + ComponentsFrom(s, SegEnd(s, i) + 1)
  {
  }

  /** `components`. */
  function Components(s: string): (r: seq<Component>)
  {
    ComponentsFrom(s, 0)
  }

  /** A name a child component can carry. */
  predicate IsName(n: string)
  {
    n != "" && n != "." && n != ".." && '/' !in n
  }

  /** Every child component of any path carries a name: nonempty, not a dot
    * entry, and free of `/`. */
  lemma {:induction false} ChildrenAreNames(s: string, i: nat)
    ensures forall c :: c in ComponentsFrom(s, i) && c.Child? ==> IsName(c.name)
    decreases |s| - i
  {
    if i < |s| {
      var e := SegEnd(s, i);
      ChildrenAreNames(s, e + 1);
      SlashFreeSlice(s, i, e);
    }
  }

  /** A slash-free run, sliced out, contains no `/`. */
  lemma SlashFreeSlice(s: string, i: nat, j: nat)
    requires i <= j <= |s| && SlashFree(s, i, j)
    ensures '/' !in s[i..j]
  {
    assert forall k :: 0 <= k < j - i ==> s[i..j][k] == s[i + k];
  }

  /** One step of the iteration over `t + b` inside `t`, when `t` ends in `/`. */
  lemma SplitStep(t: string, b: string, i: nat)
    requires i < |t| && t[|t| - 1] == '/'
    ensures SegEnd(t, i) < |t|
    ensures ComponentsFrom(t + b, i) == [Classify(t[i..SegEnd(t, i)])] + ComponentsFrom(t + b, SegEnd(t, i) + 1)
  {
    assert !SlashFree(t, i, |t|) by {
      assert t[|t| - 1] == '/';
    }
    SegEndPrefix(t, b, i);
    ComponentsStep(t + b, i);
  }

  /** A slash-free segment after the end of `t` is one component. */
  lemma LastSegment(t: string, seg: string)
    requires seg != [] && '/' !in seg
    ensures ComponentsFrom(t + seg, |t|) == [Classify(seg)]
  {
    var s := t + seg;
    assert SlashFree(s, |t|, |s|) by {
      forall k | |t| <= k < |s|
        ensures s[k] != '/'
      {
        assert s[k] == seg[k - |t|];
      }
    }
    SegEndIs(s, |t|, |s|);
    ComponentsStep(s, |t|);
    assert s[|t|..|s|] == seg;
  }

  /** After a `/`, a slash-free segment adds exactly its own component. */
  lemma {:induction false} ComponentsSplit(t: string, seg: string, i: nat)
    requires i < |t| && t[|t| - 1] == '/'
    requires seg != [] && '/' !in seg
    ensures ComponentsFrom(t + seg, i) == ComponentsFrom(t, i) + [Classify(seg)]
    decreases |t| - i, 1
  {
    var e := SegEnd(t, i);
    SplitStep(t, seg, i);
    ComponentsStep(t, i);
    if e + 1 < |t| {
      ComponentsSplitMore(t, seg, i, e);
    } else {
      ComponentsSplitLast(t, seg, i, e);
    }
  }

  /** The segment at `i` ends before the last `/` of `t`. */
  lemma {:induction false} ComponentsSplitMore(t: string, seg: string, i: nat, e: nat)
    requires i < |t| && t[|t| - 1] == '/'
    requires seg != [] && '/' !in seg
    requires e == SegEnd(t, i) && e + 1 < |t|
    requires ComponentsFrom(t + seg, i) == [Classify(t[i..e])] + ComponentsFrom(t + seg, e + 1)
    requires ComponentsFrom(t, i) == [Classify(t[i..e])] + ComponentsFrom(t, e + 1)
    ensures ComponentsFrom(t + seg, i) == ComponentsFrom(t, i) + [Classify(seg)]
    decreases |t| - i, 0
  {
    ComponentsSplit(t, seg, e + 1);
    Regroup(ComponentsFrom(t + seg, i), ComponentsFrom(t, i), [Classify(t[i..e])],
      ComponentsFrom(t + seg, e + 1), ComponentsFrom(t, e + 1), [Classify(seg)]);
  }

  /** The segment at `i` ends at the last `/` of `t`. */
  lemma ComponentsSplitLast(t: string, seg: string, i: nat, e: nat)
    requires i < |t| && t[|t| - 1] == '/'
    requires seg != [] && '/' !in seg
    requires e == SegEnd(t, i) && e + 1 == |t|
    requires ComponentsFrom(t + seg, i) == [Classify(t[i..e])] + ComponentsFrom(t + seg, e + 1)
    requires ComponentsFrom(t, i) == [Classify(t[i..e])] + ComponentsFrom(t, e + 1)
    ensures ComponentsFrom(t + seg, i) == ComponentsFrom(t, i) + [Classify(seg)]
  {
    LastSegment(t, seg);
    assert ComponentsFrom(t, e + 1) == [];
  }

  /** `a = h + x` and `x = y + c` regroup as `a = (h + y) + c`. */
  lemma Regroup(a: seq<Component>, b: seq<Component>, h: seq<Component>, x: seq<Component>, y: seq<Component>, c: seq<Component>)
    requires a == h + x && x == y + c && b == h + y
    ensures a == b + c
  {
  }

  /** A segment that ends inside `t` ends there in `t + b` too. */
  lemma SegEndPrefix(t: string, b: string, i: nat)
    requires i <= |t| && SegEnd(t, i) < |t|
    ensures SegEnd(t + b, i) == SegEnd(t, i) && (t + b)[i..SegEnd(t, i)] == t[i..SegEnd(t, i)]
  {
    var s := t + b;
    var e := SegEnd(t, i);
    assert SlashFree(s, i, e) by {
      forall k | i <= k < e
        ensures s[k] != '/'
      {
        assert s[k] == t[k];
      }
    }
    assert s[e] == t[e];
    SegEndIs(s, i, e);
  }

  /** A trailing `/` after a segment adds no component. */
  lemma {:induction false} TrailingSlash(a: string, i: nat)
    requires i < |a| && a[|a| - 1] != '/'
    ensures ComponentsFrom(a + "/", i) == ComponentsFrom(a, i)
    decreases |a| - i
  {
    var t := a + "/";
    var e := SegEnd(a, i);
    assert SlashFree(t, i, e) by {
      forall k | i <= k < e
        ensures t[k] != '/'
      {
        assert t[k] == a[k];
      }
    }
    SegEndIs(t, i, e);
    assert t[i..e] == a[i..e];
    assert ComponentsFrom(t, i) == [Classify(a[i..e])] + ComponentsFrom(t, e + 1);
    if e + 1 < |a| {
      TrailingSlash(a, e + 1);
    } else {
      assert e == |a|;
    }
  }

  /** A slash-free nonempty string is a single component. */
  lemma SingleSegment(seg: string)
    requires seg != [] && '/' !in seg
    ensures Components(seg) == [Classify(seg)]
  {
    assert SlashFree(seg, 0, |seg|);
    SegEndIs(seg, 0, |seg|);
    ComponentsStep(seg, 0);
    assert seg[0..|seg|] == seg;
  }

  // ---------------------------------------------------------------------------
  // Components as written: an index in bytes over a walk in characters

  /** The number of bytes `ch` takes in UTF-8. */
  function Utf8Len(ch: char): (n: nat)
    ensures 1 <= n <= 4
    ensures n == 1 <==> (ch as int) < 0x80
  {
    if (ch as int) < 0x80 then 1
    else if (ch as int) < 0x800 then 2
    else if (ch as int) < 0x1_0000 then 3
    else 4
  }

  /** `String::len`: the length of `s` in UTF-8 bytes. */
  function ByteLen(s: string): (n: nat)
  {
    if s == [] then 0 else ByteLen(s[..|s| - 1]) + Utf8Len(s[|s| - 1])
  }

  /** Every character of `s` is ASCII, one byte in UTF-8. */
  predicate IsAscii(s: string)
  {
    forall k :: 0 <= k < |s| ==> (s[k] as int) < 0x80
  }

  /** An ASCII text is as long in bytes as in characters. */
  lemma {:induction false} AsciiByteLen(s: string)
    requires IsAscii(s)
    ensures ByteLen(s) == |s|
  {
    if s != [] {
      AsciiByteLen(s[..|s| - 1]);
    }
  }

  /** The components `next` yields as written from index `i` of a text `s`
    * whose byte length is `n`.  The index is compared with `n` and advanced
    * by the segment's byte length plus one, while the segment itself is cut
    * after skipping `i` characters; past the last character the skip leaves
    * an empty segment, which is Root. */
  function ComponentsFromAsWritten(s: string, n: nat, i: nat): (r: seq<Component>)
    decreases n - i
  {
    if i >= n then []
    else
      var k := if i <= |s| then i else |s|;
      var segment := s[k..SegEnd(s, k)];
      [Classify(segment)] + ComponentsFromAsWritten(s, n, i + ByteLen(segment) + 1)
  }

  /** `components`, as written. */
  function ComponentsAsWritten(s: string): (r: seq<Component>)
  {
    ComponentsFromAsWritten(s, ByteLen(s), 0)
  }

  /** On ASCII text the iterator as written yields the components of the
    * character-indexed iteration, so every fact above about `ComponentsFrom`
    * holds of the source there. */
  lemma AsWrittenAgreesOnAscii(s: string, i: nat)
    requires IsAscii(s)
    ensures ComponentsFromAsWritten(s, ByteLen(s), i) == ComponentsFrom(s, i)
  {
    AsciiByteLen(s);
    forall j | 0 <= j <= |s|
      ensures ByteLen(s[j..SegEnd(s, j)]) == SegEnd(s, j) - j
    {
      AsciiSlice(s, j, SegEnd(s, j));
      AsciiByteLen(s[j..SegEnd(s, j)]);
    }
    AgreesFrom(s, i);
  }

  /** The agreement, from segments as long in bytes as in characters. */
  lemma {:induction false} AgreesFrom(s: string, i: nat)
    requires forall j {:trigger SegEnd(s, j)} | 0 <= j <= |s| :: ByteLen(s[j..SegEnd(s, j)]) == SegEnd(s, j) - j
    ensures ComponentsFromAsWritten(s, |s|, i) == ComponentsFrom(s, i)
    decreases |s| - i
  {
    if i < |s| {
      var e := SegEnd(s, i);
      AsWrittenStep(s, |s|, i);
      ComponentsStep(s, i);
      AgreesFrom(s, e + 1);
    }
  }

  /** One step of the iteration as written, from an index within the text. */
  lemma AsWrittenStep(s: string, n: nat, i: nat)
    requires i < |s| <= n
    ensures ComponentsFromAsWritten(s, n, i)
         == [Classify(s[i..SegEnd(s, i)])] + ComponentsFromAsWritten(s, n, i + ByteLen(s[i..SegEnd(s, i)]) + 1)
  {
  }

  lemma AsciiSlice(s: string, i: nat, j: nat)
    requires IsAscii(s) && i <= j <= |s|
    ensures IsAscii(s[i..j])
  {
    assert forall k :: 0 <= k < j - i ==> s[i..j][k] == s[i + k];
  }

  /** "/é/x" with its one two-byte character. */
  const AccentedPath: string := "/\U{E9}/x"

  /** As written, a two-byte character throws the index off: on "/é/x" the
    * third step starts past the last character and yields Root, so "x" is
    * lost and the path has no file name, where the character-indexed
    * iteration yields Child("x"). */
  lemma AsWrittenLosesNameAfterNonAscii()
    ensures ComponentsAsWritten(AccentedPath) == [Root, Child("\U{E9}"), Root]
    ensures Components(AccentedPath) == [Root, Child("\U{E9}"), Child("x")]
    ensures FileName(AccentedPath) == None
  {
    var s := AccentedPath;
    assert |s| == 4 && s[0] == '/' && s[1] == '\U{E9}' && s[2] == '/' && s[3] == 'x';
    assert ByteLen(s[..1]) == 1;
    assert ByteLen(s[..2]) == 3 by { assert s[..2][..1] == s[..1]; }
    assert ByteLen(s[..3]) == 4 by { assert s[..3][..2] == s[..2]; }
    assert ByteLen(s) == 5 by { assert s[..3] == s[..|s| - 1]; }
    SegEndIs(s, 0, 0);
    SegEndIs(s, 1, 2);
    SegEndIs(s, 3, 4);
    SegEndIs(s, 4, 4);
    assert s[0..0] == "" && s[1..2] == "\U{E9}" && s[3..4] == "x" && s[4..4] == "";
    assert ByteLen("\U{E9}") == 2 by { assert "\U{E9}"[..0] == ""; }
    assert ByteLen("") == 0;
    assert Classify("\U{E9}") == Child("\U{E9}") && Classify("x") == Child("x");
    assert ComponentsFromAsWritten(s, 5, 5) == [];
    assert ComponentsFromAsWritten(s, 5, 4) == [Root];
    assert ComponentsFromAsWritten(s, 5, 1) == [Child("\U{E9}"), Root];
    assert ComponentsFrom(s, 5) == [];
    assert ComponentsFrom(s, 3) == [Child("x")];
    assert ComponentsFrom(s, 1) == [Child("\U{E9}"), Child("x")];
  }

  // ---------------------------------------------------------------------------
  // Growing a path

  /** What `push_component` appends, as written: no separator before a name
    * or `..`. */
  function Pushed(c: Component): (r: string)
  {
    match c
    case Root => "/"
    case Parent => ".."
    case Current => "/"
    case Child(name) => name
  }

  /** As written, pushing a child onto a path that does not end in `/` glues
    * the name onto the last component: "/x" with "y" pushed reads as the
    * components "/" and "xy". */
  lemma PushMergesNames()
    ensures Components("/x" + Pushed(Child("y"))) == [Root, Child("xy")]
    ensures Components("/x") + [Child("y")] == [Root, Child("x"), Child("y")]
  {
    var s := "/x" + Pushed(Child("y"));
    assert s == "/xy";
    SegEndIs(s, 0, 0);
    SegEndIs(s, 1, 3);
    assert s[0..0] == "" && s[1..3] == "xy";
    assert ComponentsFrom(s, 4) == [];
    assert ComponentsFrom(s, 1) == [Child("xy")];
    var t := "/x";
    SegEndIs(t, 0, 0);
    SegEndIs(t, 1, 2);
    assert t[0..0] == "" && t[1..2] == "x";
    assert ComponentsFrom(t, 3) == [];
    assert ComponentsFrom(t, 1) == [Child("x")];
  }

  /** The separator the corrected push puts before a name: none when the path
    * is empty or already ends in `/`. */
  function Separator(text: string): (r: string)
  {
    if text == [] || text[|text| - 1] == '/' then "" else "/"
  }

  /** The corrected `push_component`: a name or `..` is separated from what
    * precedes it. */
  function PushedFixed(text: string, c: Component): (r: string)
  {
    match c
    case Root => "/"
    case Parent => Separator(text) + ".."
    case Current => "/"
    case Child(name) => Separator(text) + name
  }

  /** With the separator, appending a segment adds exactly its component. */
  lemma AppendSegment(text: string, seg: string)
    requires seg != [] && '/' !in seg
    ensures Components(text + Separator(text) + seg) == Components(text) + [Classify(seg)]
  {
    SingleSegment(seg);
    if text == [] {
      assert text + Separator(text) + seg == seg;
    } else if text[|text| - 1] == '/' {
      assert text + Separator(text) + seg == text + seg;
      ComponentsSplit(text, seg, 0);
    } else {
      assert text + Separator(text) + seg == (text + "/") + seg;
      ComponentsSplit(text + "/", seg, 0);
      TrailingSlash(text, 0);
    }
  }

  /** Pushing a child or a parent with the corrected push adds exactly that
    * component to the path's components. */
  lemma PushFixedAppends(text: string, c: Component)
    requires c == Parent || (c.Child? && IsName(c.name))
    ensures Components(text + PushedFixed(text, c)) == Components(text) + [c]
  {
    if c == Parent {
      assert '/' !in "..";
      AppendSegment(text, "..");
      assert text + PushedFixed(text, c) == text + Separator(text) + "..";
    } else {
      AppendSegment(text, c.name);
      assert text + PushedFixed(text, c) == text + Separator(text) + c.name;
      assert Classify(c.name) == c;
    }
  }

  /** The component `join_str` pushes: "/", "." and ".." all push the root,
    * and a name containing `/` is `Io.InvalidInput`. */
  function JoinComponent(other: string): (r: Result<Component, Io.ErrorKind>)
    ensures r.Err? <==> other != "/" && '/' in other
    ensures r.Err? ==> r.error == Io.InvalidInput
    ensures r == Ok(Root) <==> other == "/" || other == "." || other == ".."
    ensures r.Ok? && r.value != Root ==> r.value == Child(other) && '/' !in other
  {
    if other == "/" || other == "." || other == ".." then Ok(Root)
    else if '/' in other then Err(Io.InvalidInput)
    else Ok(Child(other))
  }

  /** What pushing every component of `cs` in turn appends. */
  function PushedAll(cs: seq<Component>): (r: string)
  {
    if cs == [] then "" else PushedAll(cs[..|cs| - 1]) + Pushed(cs[|cs| - 1])
  }

  lemma PushedAllSnoc(cs: seq<Component>, k: nat)
    requires k < |cs|
    ensures PushedAll(cs[..k + 1]) == PushedAll(cs[..k]) + Pushed(cs[k])
  {
    assert cs[..k + 1][..k] == cs[..k];
  }

  lemma AppendAssoc(a: string, b: string, c: string)
    ensures (a + b) + c == a + (b + c)
  {
  }

  /** `simplify`: the components of the path pushed onto an empty one. */
  function Simplify(text: string): (r: string)
  {
    PushedAll(ComponentsAsWritten(text))
  }

  /** The `/`-separated pieces `split('/')` yields from index `i`: one more
    * than there are slashes, empty pieces included. */
  function SplitFrom(s: string, i: nat): (r: seq<string>)
    requires i <= |s|
    ensures |r| >= 1
    ensures forall k :: 0 <= k < |r| ==> '/' !in r[k]
    decreases |s| - i
  {
    var e := SegEnd(s, i);
    assert forall k :: 0 <= k < e - i ==> s[i..e][k] == s[i + k];
    if e == |s| then [s[i..]] else [s[i..e]] + SplitFrom(s, e + 1)
  }

  /** What the fold of `try_from` appends for the pieces `ps`, or the first
    * error of `join_str`. */
  function TryFromPieces(ps: seq<string>, text: string): (r: Result<string, Io.ErrorKind>)
    decreases |ps|
  {
    if ps == [] then Ok(text)
    else if ps[0] == [] then TryFromPieces(ps[1..], text + Pushed(Root))
    else
      match JoinComponent(ps[0])
      case Err(e) => Err(e)
      case Ok(c) => TryFromPieces(ps[1..], text + Pushed(c))
  }

  /** `Path::try_from`. */
  function TryFrom(value: string): (r: Result<string, Io.ErrorKind>)
  {
    TryFromPieces(SplitFrom(value, 0), "")
  }

  /** `try_from` never fails: `split` leaves no piece that `join_str` rejects. */
  lemma {:induction false} TryFromPiecesSucceed(ps: seq<string>, text: string)
    requires forall k :: 0 <= k < |ps| ==> '/' !in ps[k]
    ensures TryFromPieces(ps, text).Ok?
    ensures |TryFromPieces(ps, text).value| >= |text|
    decreases |ps|
  {
    if ps != [] {
      if ps[0] == [] {
        TryFromPiecesSucceed(ps[1..], text + Pushed(Root));
      } else {
        TryFromPiecesSucceed(ps[1..], text + Pushed(JoinComponent(ps[0]).value));
      }
    }
  }

  lemma TryFromSucceeds(value: string)
    ensures TryFrom(value).Ok?
  {
    TryFromPiecesSucceed(SplitFrom(value, 0), "");
  }

  /** As written, `try_from("/a/b")` is "/ab". */
  lemma TryFromJoinsNames()
    ensures TryFrom("/a/b") == Ok("/ab")
  {
    SplitExample();
    assert JoinComponent("a") == Ok(Child("a")) && JoinComponent("b") == Ok(Child("b"));
    var p3, p2, p1: seq<string> := ["", "a", "b"], ["a", "b"], ["b"];
    assert p3[0] == [] && p3[1..] == p2 && p2[0] == "a" && p2[1..] == p1 && p1[0] == "b" && p1[1..] == [];
    assert "" + Pushed(Root) == "/" && "/" + Pushed(Child("a")) == "/a" && "/a" + Pushed(Child("b")) == "/ab";
    assert TryFromPieces(p1, "/a") == Ok("/ab");
    assert TryFromPieces(p2, "/") == Ok("/ab");
  }

  /** `split('/')` cuts "/a/b" into "", "a" and "b". */
  lemma SplitExample()
    ensures SplitFrom("/a/b", 0) == ["", "a", "b"]
  {
    var s := "/a/b";
    SegEndIs(s, 0, 0);
    SegEndIs(s, 1, 2);
    SegEndIs(s, 3, 4);
    assert s[0..0] == "" && s[1..2] == "a" && s[3..] == "b";
    assert SplitFrom(s, 3) == ["b"];
    assert SplitFrom(s, 1) == ["a", "b"];
  }

  /** The fold of `try_from` with the corrected push. */
  function TryFromPiecesFixed(ps: seq<string>, text: string): (r: Result<string, Io.ErrorKind>)
    decreases |ps|
  {
    if ps == [] then Ok(text)
    else if ps[0] == [] then TryFromPiecesFixed(ps[1..], text + PushedFixed(text, Root))
    else
      match JoinComponent(ps[0])
      case Err(e) => Err(e)
      case Ok(c) => TryFromPiecesFixed(ps[1..], text + PushedFixed(text, c))
  }

  /** With the corrected push, `try_from("/a/b")` keeps its separators. */
  lemma TryFromFixedKeepsSeparators()
    ensures TryFromPiecesFixed(SplitFrom("/a/b", 0), "") == Ok("/a/b")
  {
    SplitExample();
    assert JoinComponent("a") == Ok(Child("a")) && JoinComponent("b") == Ok(Child("b"));
    var p3, p2, p1: seq<string> := ["", "a", "b"], ["a", "b"], ["b"];
    assert p3[0] == [] && p3[1..] == p2 && p2[0] == "a" && p2[1..] == p1 && p1[0] == "b" && p1[1..] == [];
    assert Separator("/") == "" && Separator("/a") == "/";
    assert "" + PushedFixed("", Root) == "/" && "/" + PushedFixed("/", Child("a")) == "/a";
    assert "/a" + PushedFixed("/a", Child("b")) == "/a/b";
    assert TryFromPiecesFixed(p1, "/a") == Ok("/a/b");
    assert TryFromPiecesFixed(p2, "/") == Ok("/a/b");
  }

  // ---------------------------------------------------------------------------
  // Queries

  /** `starts_with`: a string prefix test. */
  predicate StartsWith(text: string, other: string)
  {
    other <= text
  }

  /** `relative_from` as written: the prefix of `text` as long as `other`. */
  function RelativeFrom(text: string, other: string): (r: Option<string>)
  {
    if !StartsWith(text, other) then None else Some(text[..|other|])
  }

  /** As written, `relative_from` gives back `other` itself whenever it
    * succeeds: "/mnt/a" relative from "/mnt" is "/mnt", not "/a". */
  lemma RelativeFromIsOther(text: string, other: string)
    ensures RelativeFrom(text, other).Some? <==> other <= text
    ensures RelativeFrom(text, other).Some? ==> RelativeFrom(text, other).value == other
    ensures RelativeFrom("/mnt/a", "/mnt") == Some("/mnt")
  {
    assert "/mnt" <= "/mnt/a";
    assert "/mnt/a"[..4] == "/mnt";
  }

  /** The corrected `relative_from`: what follows the prefix. */
  function RelativeFromFixed(text: string, other: string): (r: Option<string>)
  {
    if !StartsWith(text, other) then None else Some(text[|other|..])
  }

  /** The corrected `relative_from` succeeds exactly for a prefix, and the
    * prefix followed by the result is the path again. */
  lemma RelativeFromFixedRestores(text: string, other: string)
    ensures RelativeFromFixed(text, other).Some? <==> StartsWith(text, other)
    ensures RelativeFromFixed(text, other).Some? ==> other + RelativeFromFixed(text, other).value == text
    ensures forall suffix :: RelativeFromFixed(other + suffix, other) == Some(suffix)
  {
    forall suffix
      ensures RelativeFromFixed(other + suffix, other) == Some(suffix)
    {
      assert other <= other + suffix;
      assert (other + suffix)[|other|..] == suffix;
    }
  }

  /** The name `file_name` reads off the components `cs`: the last one's;
    * the root and an empty sequence have none. */
  function LastName(cs: seq<Component>): (r: Option<string>)
  {
    if cs == [] then None
    else
      match cs[|cs| - 1]
      case Root => None
      case Parent => Some("..")
      case Current => Some(".")
      case Child(n) => Some(n)
  }

  /** `file_name`, as written. */
  function FileName(text: string): (r: Option<string>)
  {
    LastName(ComponentsAsWritten(text))
  }

  /** The name last appended with its separator is the last component's
    * name, and on ASCII text it is the file name; the root and the empty
    * path have none. */
  lemma FileNameOfAppended(text: string, name: string)
    requires IsName(name)
    ensures LastName(Components(text + Separator(text) + name)) == Some(name)
    ensures IsAscii(text) && IsAscii(name) ==> FileName(text + Separator(text) + name) == Some(name)
    ensures FileName("/") == None && FileName("") == None
  {
    var s := text + Separator(text) + name;
    AppendSegment(text, name);
    if IsAscii(text) && IsAscii(name) {
      assert IsAscii(s) by {
        assert forall k :: 0 <= k < |s| ==> s[k] == (if k < |text| then text[k] else if k < |text| + |Separator(text)| then '/' else name[k - |text| - |Separator(text)|]);
      }
      AsWrittenAgreesOnAscii(s, 0);
    }
    SegEndIs("/", 0, 0);
    assert ByteLen("/") == 1 by { assert "/"[..0] == ""; }
  }

  // ---------------------------------------------------------------------------
  // The mutable path and the component iterator

  /** `PathComponentIterator`: the text and the index of the next segment. */
  class ComponentIterator {
    const text: string
    var index: nat

    /** The components still to come. */
    function Remaining(): seq<Component>
      reads this
    {
      ComponentsFromAsWritten(text, ByteLen(text), index)
    }

    constructor (text: string)
      ensures this.text == text && index == 0 && Remaining() == ComponentsAsWritten(text)
    {
      this.text := text;
      index := 0;
    }

    /** `next`, as written: the segment is read after skipping `index`
      * characters, and the index then moves on by the segment's length in
      * bytes plus one. */
    method Next() returns (c: Option<Component>)
      modifies this`index
      ensures old(Remaining()) == [] ==> c.None? && index == old(index)
      ensures old(Remaining()) != [] ==> c == Some(old(Remaining())[0]) && Remaining() == old(Remaining())[1..]
    {
      if index >= ByteLen(text) {
        return None;
      }
      var start := if index <= |text| then index else |text|;
      var j := start;
      while j < |text| && text[j] != '/'
        invariant start <= j <= |text|
        invariant forall k :: start <= k < j ==> text[k] != '/'
      {
        j := j + 1;
      }
      SegEndIs(text, start, j);
      var segment := text[start..j];
      index := index + ByteLen(segment) + 1;
      c := Some(Classify(segment));
    }
  }

  /** `Path`. */
  class Path {
    var text: string

    /** `Path::root`. */
    constructor Root()
      ensures text == "/" && Components(text) == [Component.Root] && ComponentsAsWritten(text) == [Component.Root]
    {
      text := "/";
      SegEndIs("/", 0, 0);
      assert ByteLen("/") == 1 by { assert "/"[..0] == ""; }
    }

    /** `push_component`, as written. */
    method PushComponent(c: Component)
      modifies this
      ensures text == old(text) + Pushed(c)
    {
      match c
      case Root => text := text + "/";
      case Parent => text := text + "..";
      case Current => text := text + "/";
      case Child(name) => text := text + name;
    }

    /** `join_str`: pushes the component for `other`, or fails with
      * `Io.InvalidInput` and leaves the path as it was. */
    method JoinStr(other: string) returns (r: Result<(), Io.ErrorKind>)
      modifies this
      ensures r.Err? <==> JoinComponent(other).Err?
      ensures r.Err? ==> r.error == Io.InvalidInput && text == old(text)
      ensures r.Ok? ==> text == old(text) + Pushed(JoinComponent(other).value)
    {
      var c: Component;
      if other == "/" || other == "." || other == ".." {
        c := Component.Root;
      } else if '/' in other {
        return Err(Io.InvalidInput);
      } else {
        c := Child(other);
      }
      PushComponent(c);
      r := Ok(());
    }

    /** `join`: pushes every component of `other` in turn. */
    method Join(other: Path)
      requires other != this
      modifies this
      ensures text == old(text) + PushedAll(ComponentsAsWritten(other.text))
    {
      var it := new ComponentIterator(other.text);
      ghost var all := ComponentsAsWritten(other.text);
      ghost var k := 0;
      while true
        invariant fresh(it) && other.text == old(other.text)
        invariant 0 <= k <= |all| && it.Remaining() == all[k..]
        invariant text == old(text) + PushedAll(all[..k])
        decreases |it.Remaining()|
      {
        var c := it.Next();
        if c.None? {
          assert all[..k] == all;
          break;
        }
        assert c.value == all[k] && it.Remaining() == all[k + 1..];
        PushedAllSnoc(all, k);
        ghost var before := text;
        PushComponent(c.value);
        assert text == before + Pushed(all[k]);
        AppendAssoc(old(text), PushedAll(all[..k]), Pushed(all[k]));
        k := k + 1;
      }
    }
  }
}
