/** Slash-separated repository paths: the string operations of the planners and what they mean for
    the components (cmd/filees/explorer_anchor_batch.go, explorer_anchor_manager.go). */
module AnchorPaths {
  /** A character in front of a split text: a slash begins a new part. */
  function Prepend(c: char, parts: seq<string>): (r: seq<string>)
    requires |parts| > 0
    ensures |r| > 0
  {
    if c == '/' then [""] + parts else [[c] + parts[0]] + parts[1..]
  }

  function Split(s: string): (parts: seq<string>)
    ensures |parts| > 0
  {
    if s == "" then [""] else Prepend(s[0], Split(s[1..]))
  }

  function Join(parts: seq<string>): string
    requires |parts| > 0
  {
    if |parts| == 1 then parts[0] else parts[0] + "/" + Join(parts[1..])
  }

  lemma {:induction false} JoinSplit(s: string)
    ensures Join(Split(s)) == s
  {
    if s != "" {
      JoinSplit(s[1..]);
      var rest := Split(s[1..]);
      if s[0] == '/' {
        assert Split(s)[1..] == rest;
        assert s == "/" + s[1..];
      } else {
        assert Split(s)[1..] == rest[1..];
        assert s == [s[0]] + s[1..];
      }
    }
  }

  lemma PrependConcat(c: char, x: seq<string>, y: seq<string>)
    requires |x| > 0
    ensures Prepend(c, x + y) == Prepend(c, x) + y
  {
  }

  lemma SplitCons(c: char, t: string, s: string)
    requires s == [c] + t
    ensures Split(s) == Prepend(c, Split(t))
  {
    assert s[1..] == t;
  }

  lemma {:induction false} SplitConcat(a: string, b: string)
    ensures Split(a + "/" + b) == Split(a) + Split(b)
  {
    var all := a + "/" + b;
    if a == "" {
      SplitCons('/', b, all);
    } else {
      var c, t := a[0], a[1..];
      SplitCons(c, t, a);
      SplitCons(c, t + "/" + b, all);
      SplitConcat(t, b);
      PrependConcat(c, Split(t), Split(b));
    }
  }

  lemma {:induction false} JoinConcat(a: seq<string>, b: seq<string>)
    requires |a| > 0 && |b| > 0
    ensures Join(a + b) == Join(a) + "/" + Join(b)
  {
    assert (a + b)[1..] == a[1..] + b;
    if |a| > 1 {
      JoinConcat(a[1..], b);
    } else {
      assert a[1..] + b == b;
    }
  }

  /** No part has a slash in it, so with `JoinSplit` the parts are the only ones the text is made of. */
  lemma {:induction false} PartsHaveNoSlash(s: string, i: nat)
    requires i < |Split(s)|
    ensures '/' !in Split(s)[i]
  {
    if s != "" {
      var rest := Split(s[1..]);
      if s[0] == '/' {
        if i > 0 {
          PartsHaveNoSlash(s[1..], i - 1);
        }
      } else {
        PartsHaveNoSlash(s[1..], i);
      }
    }
  }

  lemma {:induction false} SplitPlain(s: string)
    requires '/' !in s
    ensures Split(s) == [s]
  {
    if s != "" {
      SplitPlain(s[1..]);
      assert [s[0]] + s[1..] == s;
    }
  }

  /** `part` stands in the text between slashes or at its ends. */
  predicate StandsIn(s: string, before: string, part: string, after: string) {
    && s == before + part + after && '/' !in part
    && (before == "" || before[|before| - 1] == '/') && (after == "" || after[0] == '/')
  }

  lemma PartStands(s: string, i: nat) returns (before: string, after: string)
    requires i < |Split(s)|
    ensures StandsIn(s, before, Split(s)[i], after)
  {
    var parts := Split(s);
    PartsHaveNoSlash(s, i);
    JoinSplit(s);
    before := if i == 0 then "" else Join(parts[..i]) + "/";
    after := if i == |parts| - 1 then "" else "/" + Join(parts[i + 1..]);
    assert Join(parts[i..]) == parts[i] + after;
    if i > 0 {
      assert parts == parts[..i] + parts[i..];
      JoinConcat(parts[..i], parts[i..]);
    } else {
      assert parts[0..] == parts;
    }
  }

  lemma FirstStands(part: string, after: string)
    requires '/' !in part && (after == "" || after[0] == '/')
    ensures Split(part + after)[0] == part
  {
    SplitPlain(part);
    if after == "" {
      assert part + after == part;
    } else {
      SplitConcat(part, after[1..]);
      assert part + after == part + "/" + after[1..];
    }
  }

  lemma StandingIsPart(s: string, before: string, part: string, after: string)
    requires StandsIn(s, before, part, after)
    ensures part in Split(s)
  {
    FirstStands(part, after);
    var tail := part + after;
    if before == "" {
      assert s == tail;
    } else {
      var a := before[..|before| - 1];
      SplitConcat(a, tail);
      assert s == a + "/" + tail;
      assert Split(s)[|Split(a)|] == part;
    }
  }

  /** The path lies below the directory, by components. */
  ghost predicate Under(dir: string, path: string) {
    var d, p := Split(dir), Split(path);
    |d| < |p| && p[..|d|] == d
  }

  /** Testing the string prefix `dir + "/"` is testing the components. */
  lemma PrefixMeansUnder(dir: string, path: string)
    ensures dir + "/" <= path <==> Under(dir, path)
    ensures dir + "/" <= path ==> Split(path[|dir| + 1..]) == Split(path)[|Split(dir)|..]
  {
    var d, p := Split(dir), Split(path);
    if dir + "/" <= path {
      var rest := path[|dir| + 1..];
      assert path == dir + "/" + rest;
      SplitConcat(dir, rest);
    }
    if Under(dir, path) {
      assert p == d + p[|d|..];
      JoinConcat(d, p[|d|..]);
      JoinSplit(dir);
      JoinSplit(path);
    }
  }

  /** `strings.Cut` at the first slash: the part before it, and whether there is one. */
  function Cut(s: string): (string, bool) {
    if s == "" then ("", false)
    else if s[0] == '/' then ("", true)
    else var rest := Cut(s[1..]); ([s[0]] + rest.0, rest.1)
  }

  lemma {:induction false} CutIsFirstPart(s: string)
    ensures Cut(s).0 == Split(s)[0] && (Cut(s).1 <==> |Split(s)| > 1)
  {
    if s != "" && s[0] != '/' {
      CutIsFirstPart(s[1..]);
    }
  }

  /** The length of a path in bytes, in UTF-8. */
  function ByteLength(s: string): nat {
    if s == "" then 0
    else
      ByteLength(s[1..]) +
      if s[0] < '\U{80}' then 1 else if s[0] < '\U{800}' then 2 else if s[0] < '\U{10000}' then 3 else 4
  }

  // ----- Safe paths ----------------------------------------------------------------------------

  /** Lower case, as far as it can matter for the two reserved names. */
  function Lower(c: char): char {
    if 'A' <= c <= 'Z' then c + ('a' - 'A') else if c == '\U{130}' then 'i' else c
  }

  predicate Reserved(part: string, name: string) {
    |part| == |name| && forall i :: 0 <= i < |part| ==> Lower(part[i]) == name[i]
  }

  predicate SafePart(part: string) {
    && part != "" && part != "." && part != ".."
    && !Reserved(part, ".svn") && !Reserved(part, ".filees")
    && part[|part| - 1] != '.' && part[|part| - 1] != ' '
  }

  /** `anchorBatchSafePath`. */
  predicate SafePath(path: string) {
    && (forall c :: c in path ==> c !in ['\\', ':', '\r', '\0', '\t', '\n'])
    && forall i :: 0 <= i < |Split(path)| ==> SafePart(Split(path)[i])
  }

  /** `.svn` in any case. */
  predicate IsSvnName(s: string) {
    |s| == 4 && s[0] == '.' && s[1] in "sS" && s[2] in "vV" && s[3] in "nN"
  }

  /** `.filees` in any case; the dotted capital I counts as one. */
  predicate IsFileesName(s: string) {
    |s| == 7 && s[0] == '.' && s[1] in "fF" && s[2] in "iI\U{130}" && s[3] in "lL" && s[4] in "eE" && s[5] in "eE" &&
      s[6] in "sS"
  }

  lemma ReservedNames(s: string)
    ensures Reserved(s, ".svn") <==> IsSvnName(s)
    ensures Reserved(s, ".filees") <==> IsFileesName(s)
  {
    if |s| == 4 {
      assert Reserved(s, ".svn") <==>
             Lower(s[0]) == '.' && Lower(s[1]) == 's' && Lower(s[2]) == 'v' && Lower(s[3]) == 'n';
    }
    if |s| == 7 {
      assert Reserved(s, ".filees") <==>
             Lower(s[0]) == '.' && Lower(s[1]) == 'f' && Lower(s[2]) == 'i' && Lower(s[3]) == 'l' &&
               Lower(s[4]) == 'e' && Lower(s[5]) == 'e' && Lower(s[6]) == 's';
    }
  }

  /** Not empty, no step up or on the spot, no reserved name, and no dot or space at the end. */
  predicate GoodPart(part: string) {
    && part != "" && part != "." && part != ".." && !IsSvnName(part) && !IsFileesName(part)
    && part[|part| - 1] != '.' && part[|part| - 1] != ' '
  }

  lemma GoodParts(path: string)
    ensures (forall i :: 0 <= i < |Split(path)| ==> SafePart(Split(path)[i])) <==>
              forall before, part, after :: StandsIn(path, before, part, after) ==> GoodPart(part)
  {
    if forall i :: 0 <= i < |Split(path)| ==> SafePart(Split(path)[i]) {
      forall before, part, after | StandsIn(path, before, part, after)
        ensures GoodPart(part)
      {
        StandingIsPart(path, before, part, after);
        ReservedNames(part);
      }
    } else {
      var i :| 0 <= i < |Split(path)| && !SafePart(Split(path)[i]);
      var before, after := PartStands(path, i);
      ReservedNames(Split(path)[i]);
    }
  }

  /** A path is safe exactly when it has none of six characters and nothing between its slashes is
      empty, a step up or on the spot, a reserved name, or ends in a dot or a space. */
  lemma SafePathMeans(path: string)
    ensures SafePath(path) <==>
      && '\\' !in path && ':' !in path && '\r' !in path && '\n' !in path && '\t' !in path && '\0' !in path
      && forall before, part, after :: StandsIn(path, before, part, after) ==> GoodPart(part)
  {
    GoodParts(path);
  }

  lemma {:induction false} ByteLengthAdds(a: string, b: string)
    ensures ByteLength(a + b) == ByteLength(a) + ByteLength(b)
  {
    if a == "" {
      assert a + b == b;
    } else {
      ByteLengthAdds(a[1..], b);
      assert (a + b)[1..] == a[1..] + b;
    }
  }

  /** A character takes the bytes its code point needs in groups of 7, 5 + 6, 4 + 12 and 3 + 18 bits. */
  lemma ByteLengthOfOne(c: char)
    ensures var n := c as int;
            ByteLength([c]) == 1 + (if n / 128 > 0 then 1 else 0) + (if n / 2048 > 0 then 1 else 0) +
              (if n / 65536 > 0 then 1 else 0)
  {
    assert [c][1..] == "";
  }
}
