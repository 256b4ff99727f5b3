/** Small types shared by every part of the model. */
module Basics {
  datatype Option<+T> = None | Some(value: T)

  /** White space as Unicode has it. */
  predicate IsSpace(c: char) {
    || '\t' <= c <= '\r' || c == ' ' || c == '\U{85}' || c == '\U{A0}' || c == '\U{1680}'
    || '\U{2000}' <= c <= '\U{200A}'
    || c == '\U{2028}' || c == '\U{2029}' || c == '\U{202F}' || c == '\U{205F}' || c == '\U{3000}'
  }

  /** `strings.TrimSpace`. */
  function Trim(s: string): string {
    if s != "" && IsSpace(s[0]) then Trim(s[1..])
    else if s != "" && IsSpace(s[|s| - 1]) then Trim(s[..|s| - 1])
    else s
  }

  predicate AllSpace(s: string) {
    forall c :: c in s ==> IsSpace(c)
  }

  /** The trimmed text is what is left between white space, and begins and ends with none. */
  lemma {:induction false} TrimMeans(s: string) returns (before: string, after: string)
    ensures s == before + Trim(s) + after && AllSpace(before) && AllSpace(after)
    ensures Trim(s) != "" ==> !IsSpace(Trim(s)[0]) && !IsSpace(Trim(s)[|Trim(s)| - 1])
  {
    if s != "" && IsSpace(s[0]) {
      before, after := TrimMeans(s[1..]);
      before := [s[0]] + before;
      assert s == [s[0]] + s[1..];
    } else if s != "" && IsSpace(s[|s| - 1]) {
      before, after := TrimMeans(s[..|s| - 1]);
      after := after + [s[|s| - 1]];
      assert s == s[..|s| - 1] + [s[|s| - 1]];
    } else {
      before, after := "", "";
    }
  }

  /** `core` is the text without the white space around it. */
  predicate IsCore(s: string, before: string, core: string, after: string) {
    && s == before + core + after && AllSpace(before) && AllSpace(after)
    && (core != "" ==> !IsSpace(core[0]) && !IsSpace(core[|core| - 1]))
  }

  lemma {:induction false} SpaceIsTrimmed(s: string)
    requires AllSpace(s)
    ensures Trim(s) == ""
  {
    if s != "" {
      SpaceIsTrimmed(s[1..]);
    }
  }

  /** Whatever surrounds the core is trimmed, and nothing else. */
  lemma {:induction false} TrimIsCore(s: string, before: string, core: string, after: string)
    requires IsCore(s, before, core, after)
    ensures Trim(s) == core
    decreases |before| + |after|
  {
    if core == "" {
      assert AllSpace(s);
      SpaceIsTrimmed(s);
    } else if before != "" {
      assert s[0] == before[0] && s[1..] == before[1..] + core + after;
      TrimIsCore(s[1..], before[1..], core, after);
    } else if after != "" {
      var shorter := after[..|after| - 1];
      assert s[0] == core[0] && s[|s| - 1] == after[|after| - 1];
      assert s[..|s| - 1] == before + core + shorter;
      TrimIsCore(s[..|s| - 1], before, core, shorter);
    } else {
      assert s == core;
    }
  }

  /** White space by code point. */
  lemma SpacesAre(c: char)
    ensures IsSpace(c) <==>
              var n := c as int;
              9 <= n <= 13 || 0x2000 <= n <= 0x200A ||
                n in {0x20, 0x85, 0xA0, 0x1680, 0x2028, 0x2029, 0x202F, 0x205F, 0x3000}
  {
  }
}
