/** Path strings. A string stands for its UTF-8 bytes, so its length is the one the limits are about. */
module Paths {
  import opened Common

  predicate IsSep(c: char) {
    c == '/' || c == '\\'
  }

  // ---- normalisation

  function DropSeps(s: string): (t: string)
    ensures |t| <= |s| && (t != [] ==> !IsSep(t[0]))
    ensures s != [] && IsSep(s[0]) ==> |t| < |s|
    ensures s == [] || !IsSep(s[0]) ==> t == s
  {
    if s != [] && IsSep(s[0]) then DropSeps(s[1..]) else s
  }

  /** Every run of separators becomes one '/'. */
  function Coalesce(s: string): string
    decreases |s|
  {
    if s == [] then []
    else if IsSep(s[0]) then ['/'] + Coalesce(DropSeps(s))
    else [s[0]] + Coalesce(s[1..])
  }

  function TrimStart(s: string): string {
    if s != [] && s[0] == '/' then TrimStart(s[1..]) else s
  }

  function TrimEnd(s: string): string {
    if s != [] && s[|s| - 1] == '/' then TrimEnd(s[..|s| - 1]) else s
  }

  function Normalize(path: string): string {
    TrimEnd(TrimStart(Coalesce(path)))
  }

  // ---- the reference: names between separators, joined by '/'

  ghost predicate IsName(n: string) {
    n != [] && forall c :: c in n ==> !IsSep(c)
  }

  ghost predicate AreNames(names: seq<string>) {
    forall i :: 0 <= i < |names| ==> IsName(names[i])
  }

  /** The longest prefix without separators. */
  function Word(s: string): (w: string)
    ensures w <= s
    ensures forall c :: c in w ==> !IsSep(c)
    ensures |w| < |s| ==> IsSep(s[|w|])
    ensures s != [] && !IsSep(s[0]) ==> w != []
  {
    if s == [] || IsSep(s[0]) then [] else [s[0]] + Word(s[1..])
  }

  function Segments(s: string): (names: seq<string>)
    ensures AreNames(names)
    decreases |s|
  {
    var t := DropSeps(s);
    if t == [] then [] else [Word(t)] + Segments(t[|Word(t)|..])
  }

  function Join(names: seq<string>): string {
    if names == [] then [] else if |names| == 1 then names[0] else names[0] + "/" + Join(names[1..])
  }

  lemma {:induction false} CoalesceWord(w: string, u: string)
    requires forall c :: c in w ==> !IsSep(c)
    ensures Coalesce(w + u) == w + Coalesce(u)
  {
    if w == [] {
      assert w + u == u;
    } else {
      assert (w + u)[1..] == w[1..] + u;
      CoalesceWord(w[1..], u);
    }
  }

  lemma {:induction false} TrimEndAppend(a: string, b: string)
    ensures TrimEnd(b) != [] ==> TrimEnd(a + b) == a + TrimEnd(b)
    ensures TrimEnd(b) == [] ==> TrimEnd(a + b) == TrimEnd(a)
  {
    if b == [] {
      assert a + b == a;
    } else if b[|b| - 1] == '/' {
      assert (a + b)[..|a + b| - 1] == a + b[..|b| - 1];
      TrimEndAppend(a, b[..|b| - 1]);
    }
  }

  lemma TrimEndWord(w: string)
    requires IsName(w)
    ensures TrimEnd(w) == w
  {
    assert w[|w| - 1] in w;
  }

  /** Past the leading separators. */
  lemma {:induction false} TrimmedIsJoined(s: string)
    requires s != [] && !IsSep(s[0])
    ensures TrimEnd(Coalesce(s)) == Join(Segments(s)) && Segments(s) != []
    decreases |s|
  {
    var w := Word(s);
    var u := s[|w|..];
    var v := DropSeps(u);
    assert s == w + u;
    CoalesceWord(w, u);
    TrimEndWord(w);
    if u == [] {
      assert w + [] == w;
    } else {
      assert Coalesce(s) == w + (['/'] + Coalesce(v));
      assert Segments(s) == [w] + Segments(u) && Segments(u) == Segments(v);
      TrimEndAppend(w, ['/'] + Coalesce(v));
      if v == [] {
        assert ['/'] + Coalesce(v) == ['/'] && TrimEnd(['/']) == TrimEnd(['/'][..0]);
      } else {
        TrimmedIsJoined(v);
        TrimEndAppend(['/'], Coalesce(v));
        JoinIsNotEmpty(Segments(v));
        assert ([w] + Segments(v))[1..] == Segments(v);
        assert w + (['/'] + Join(Segments(v))) == w + "/" + Join(Segments(v));
      }
    }
  }

  lemma JoinIsNotEmpty(names: seq<string>)
    requires AreNames(names) && names != []
    ensures Join(names) != [] && !IsSep(Join(names)[0])
  {
    assert IsName(names[0]) && names[0][0] in names[0];
  }

  /** Normalising splits on both separators, drops empty names and joins with '/'. */
  lemma NormalizeSplitsAndJoins(path: string)
    ensures Normalize(path) == Join(Segments(path))
  {
    var t := DropSeps(path);
    if t == [] {
      assert Coalesce(path) == [] || Coalesce(path) == ['/'];
      assert TrimStart(['/']) == TrimStart(['/'][1..]);
    } else {
      assert Segments(path) == Segments(t);
      assert Coalesce(t)[0] == t[0];
      if path != t {
        assert Coalesce(path) == ['/'] + Coalesce(t);
        assert (['/'] + Coalesce(t))[1..] == Coalesce(t);
      }
      assert TrimStart(Coalesce(path)) == Coalesce(t);
      TrimmedIsJoined(t);
    }
  }

  lemma {:induction false} WordOf(w: string, u: string)
    requires IsName(w) && (u == [] || IsSep(u[0]))
    ensures Word(w + u) == w && DropSeps(w + u) == w + u
  {
    assert w[0] in w;
    assert (w + u)[1..] == w[1..] + u;
    if |w| == 1 {
      assert w[1..] + u == u;
    } else {
      assert IsName(w[1..]);
      WordOf(w[1..], u);
    }
  }

  lemma {:induction false} SegmentsOfJoin(names: seq<string>)
    requires AreNames(names)
    ensures Segments(Join(names)) == names
  {
    if names != [] {
      var w, rest := names[0], names[1..];
      assert IsName(w);
      SegmentsOfJoin(rest);
      if rest == [] {
        assert w + [] == w;
        WordOf(w, []);
        assert w[|w|..] == [];
      } else {
        var u := "/" + Join(rest);
        assert Join(names) == w + u;
        WordOf(w, u);
        assert (w + u)[|w|..] == u && u[1..] == Join(rest);
        JoinIsNotEmpty(rest);
        assert DropSeps(u) == Join(rest);
        assert Segments(u) == Segments(Join(rest));
      }
    }
  }

  lemma NormalizeIsIdempotent(path: string)
    ensures Normalize(Normalize(path)) == Normalize(path)
    ensures Segments(Normalize(path)) == Segments(path)
  {
    NormalizeSplitsAndJoins(path);
    NormalizeSplitsAndJoins(Normalize(path));
    SegmentsOfJoin(Segments(path));
  }

  /** No backslash, no slash at either end, no two slashes in a row. */
  ghost predicate NormalForm(s: string) {
    && '\\' !in s
    && (s != [] ==> s[0] != '/' && s[|s| - 1] != '/')
    && forall i :: 0 <= i < |s| - 1 ==> !(s[i] == '/' && s[i + 1] == '/')
  }

  lemma {:induction false} JoinIsNormalForm(names: seq<string>)
    requires AreNames(names)
    ensures NormalForm(Join(names))
  {
    if names != [] {
      var w := names[0];
      assert IsName(w) && forall i :: 0 <= i < |w| ==> w[i] in w;
      if |names| > 1 {
        var rest := Join(names[1..]);
        JoinIsNormalForm(names[1..]);
        JoinIsNotEmpty(names[1..]);
        var s := w + "/" + rest;
        assert forall i :: 0 <= i < |s| ==>
          s[i] == if i < |w| then w[i] else if i == |w| then '/' else rest[i - |w| - 1];
      }
    }
  }

  lemma NormalizeGivesNormalForm(path: string)
    ensures NormalForm(Normalize(path))
  {
    hide NormalForm, Segments, Join, Normalize;
    NormalizeSplitsAndJoins(path);
    JoinIsNormalForm(Segments(path));
  }

  // ---- limits

  function Slashes(s: string): (n: nat)
    ensures n <= |s| && (s != [] && s[0] != '/' ==> n < |s|)
  {
    if s == [] then 0 else (if s[0] == '/' then 1 else 0) + Slashes(s[1..])
  }

  /** Lengths are cast to 32 bits. */
  function PreparePath(path: string, maxLength: nat, maxDepth: nat): Option<string> {
    if |path| % U32 > (maxLength + 32) % U32 then None
    else
      var normalized := Normalize(path);
      if (Slashes(normalized) % U32 + 1) % U32 > maxDepth || |normalized| % U32 > maxLength then None
      else Some(normalized)
  }

  /** A prepared path is normalised and prepares to itself, and it meets both limits exactly when its length
      is below 2^32. */
  lemma PreparedPath(path: string, maxLength: nat, maxDepth: nat)
    requires maxLength + 32 < U32 && PreparePath(path, maxLength, maxDepth).Some?
    ensures var r := PreparePath(path, maxLength, maxDepth).value;
            && r == Join(Segments(path))
            && PreparePath(r, maxLength, maxDepth) == Some(r)
            && (|r| <= maxLength && Slashes(r) + 1 <= maxDepth <==> |r| < U32)
  {
    hide Normalize, Segments, Join;
    var r := PreparePath(path, maxLength, maxDepth).value;
    NormalizeSplitsAndJoins(path);
    NormalizeIsIdempotent(path);
    if Segments(path) == [] { JoinNone(); } else { JoinIsNotEmpty(Segments(path)); }
  }

  lemma {:induction false} SlashesConcat(a: string, b: string)
    ensures Slashes(a + b) == Slashes(a) + Slashes(b)
  {
    if a == [] {
      assert a + b == b;
    } else {
      assert (a + b)[1..] == a[1..] + b;
      SlashesConcat(a[1..], b);
    }
  }

  lemma {:induction false} NoSlashes(s: string)
    requires '/' !in s
    ensures Slashes(s) == 0
  {
    if s != [] {
      assert s[0] in s;
      NoSlashes(s[1..]);
    }
  }

  /** One slash less than names. */
  lemma {:induction false} SlashesOfJoin(names: seq<string>)
    requires AreNames(names) && names != []
    ensures Slashes(Join(names)) == |names| - 1
  {
    NoSlashes(names[0]);
    if |names| > 1 {
      SlashesOfJoin(names[1..]);
      SlashesConcat(names[0] + "/", Join(names[1..]));
      SlashesConcat(names[0], "/");
    }
  }

  lemma {:induction false} CoalesceShrinks(s: string)
    ensures |Coalesce(s)| <= |s|
    decreases |s|
  {
    if s != [] { CoalesceShrinks(if IsSep(s[0]) then DropSeps(s) else s[1..]); }
  }

  lemma {:induction false} TrimStartShrinks(s: string)
    ensures |TrimStart(s)| <= |s|
  {
    if s != [] { TrimStartShrinks(s[1..]); }
  }

  lemma {:induction false} TrimEndShrinks(s: string)
    ensures |TrimEnd(s)| <= |s|
  {
    if s != [] { TrimEndShrinks(s[..|s| - 1]); }
  }

  /** A path shorter than 2^32 is accepted exactly when neither it nor what its names make is too long, and it
      has no more names than the depth allows; one without names counts as one deep. */
  lemma PathIsAcceptedIff(path: string, maxLength: nat, maxDepth: nat)
    requires maxLength + 32 < U32 && |path| < U32
    ensures PreparePath(path, maxLength, maxDepth).Some? <==>
            && |path| <= maxLength + 32
            && |Join(Segments(path))| <= maxLength
            && Max(1, |Segments(path)|) <= maxDepth
  {
    hide Coalesce, TrimStart, TrimEnd, Segments, Join;
    NormalizeSplitsAndJoins(path);
    CoalesceShrinks(path);
    TrimStartShrinks(Coalesce(path));
    TrimEndShrinks(TrimStart(Coalesce(path)));
    if Segments(path) == [] {
      JoinNone();
    } else {
      JoinIsNotEmpty(Segments(path));
      SlashesOfJoin(Segments(path));
    }
  }

  // ---- parent and name

  /** Trailing "." components do not count; a leading one does. */
  function TrimDots(names: seq<string>): (t: seq<string>)
    ensures t <= names && (names != [] ==> t != [])
  {
    if |names| > 1 && names[|names| - 1] == "." then TrimDots(names[..|names| - 1]) else names
  }

  /** Splitting a prepared path by the component rules of the standard library's paths. */
  function SplitPath(path: string): (Option<string>, string) {
    var names := TrimDots(Segments(path));
    if names == [] then (None, "")
    else
      var parent, last := TrimDots(names[..|names| - 1]), names[|names| - 1];
      (if parent == [] then None else Some(Join(parent)), if last == "." || last == ".." then "" else last)
  }

  function JoinParentName(parent: string, name: string): string {
    if parent == [] then name else parent + "/" + name
  }

  /** The last name is a real one, and the one before it is not "." unless it leads. */
  predicate Plain(names: seq<string>) {
    && (names != [] ==> names[|names| - 1] != "." && names[|names| - 1] != "..")
    && (|names| >= 3 ==> names[|names| - 2] != ".")
  }

  lemma {:induction false} JoinLast(names: seq<string>, last: string)
    requires names != []
    ensures Join(names + [last]) == Join(names) + "/" + last
  {
    if |names| > 1 {
      JoinLast(names[1..], last);
      assert (names + [last])[1..] == names[1..] + [last];
      assert names[0] + "/" + (Join(names[1..]) + "/" + last) == names[0] + "/" + Join(names[1..]) + "/" + last;
    } else {
      assert (names + [last])[1..] == [last];
    }
  }

  /** Joining the parts gives the joined components back. */
  lemma JoinedParts(path: string)
    ensures var (parent, name) := SplitPath(path);
            var names := TrimDots(Segments(path));
            JoinParentName(parent.GetOr(""), name) ==
            if names == [] then "" else
              var init := TrimDots(names[..|names| - 1]);
              if init == [] then name else Join(init) + "/" + name
  {
    var names := TrimDots(Segments(path));
    if names != [] {
      var init := TrimDots(names[..|names| - 1]);
      if init != [] { JoinIsNotEmpty(init); }
    }
  }

  /** Splitting a normalised path and joining the parts gives it back exactly when it is plain. */
  lemma SplitThenJoinIff(path: string)
    ensures var (parent, name) := SplitPath(path);
            JoinParentName(parent.GetOr(""), name) == Normalize(path) <==> Plain(Segments(path))
  {
    hide Segments, Join, SplitPath, JoinParentName;
    NormalizeSplitsAndJoins(path);
    JoinedParts(path);
    PartsAre(path);
    var all := Segments(path);
    var names := TrimDots(all);
    if all != [] {
      var init, last := TrimDots(names[..|names| - 1]), names[|names| - 1];
      if last != "." && last != ".." {
        var parts := init + [last];
        assert Join(parts) == if init == [] then last else Join(init) + "/" + last by {
          if init != [] { JoinLast(init, last); } else { assert parts == [last]; JoinOne(last); }
        }
        JoinIsInjective(parts, all);
        PlainKeeps(all);
      } else {
        DanglingDiffers(all, init);
      }
    } else {
      JoinNone();
    }
  }

  lemma JoinOne(name: string)
    ensures Join([name]) == name
  {
  }

  lemma JoinNone()
    ensures Join([]) == ""
  {
  }

  lemma PartsAre(path: string)
    ensures var names := TrimDots(Segments(path));
            SplitPath(path).1 == if names == [] || names[|names| - 1] == "." ||
                names[|names| - 1] == ".." then "" else names[|names| - 1]
  {
  }

  lemma JoinIsInjective(a: seq<string>, b: seq<string>)
    requires AreNames(a) && AreNames(b)
    ensures Join(a) == Join(b) <==> a == b
  {
    SegmentsOfJoin(a);
    SegmentsOfJoin(b);
  }

  lemma PlainKeeps(all: seq<string>)
    requires all != []
    ensures var names := TrimDots(all);
            names != [] && (names[|names| - 1] != "." && names[|names| - 1] != ".." ==>
              (TrimDots(names[..|names| - 1]) + [names[|names| - 1]] == all <==> Plain(all)))
  {
  }

  /** A path that ends in a dot component loses it. */
  lemma DanglingDiffers(all: seq<string>, init: seq<string>)
    requires AreNames(all) && AreNames(init)
    ensures all != [] ==> Join(all) != if init == [] then "" else Join(init) + "/"
  {
    if all != [] { JoinEnds(all); }
  }

  lemma {:induction false} JoinEnds(names: seq<string>)
    requires AreNames(names) && names != []
    ensures Join(names) != [] && !IsSep(Join(names)[|Join(names)| - 1])
  {
    if |names| == 1 {
      assert IsName(names[0]) && names[0][|names[0]| - 1] in names[0];
    } else {
      JoinEnds(names[1..]);
    }
  }

  /** Different prepared paths can name the same file: a "." before the name is dropped. */
  lemma DotNamesTheSameFile(names: seq<string>, last: string)
    requires AreNames(names) && names != [] && IsName(last) && last != "."
    ensures var plain, dotted := Join(names + [last]), Join(names + [".", last]);
            plain != dotted && SplitPath(plain) == SplitPath(dotted)
  {
    hide Segments, Join;
    assert IsName(".");
    SegmentsOfJoin(names + [last]);
    SegmentsOfJoin(names + [".", last]);
    assert (names + [last])[..|names|] == names;
    assert (names + [".", last])[..|names| + 1] == names + ["."];
    assert (names + ["."])[..|names|] == names;
  }
}
