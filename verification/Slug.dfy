/** Turning a name into a slug: a chain of replacements whose results are exactly its own fixed points. */
module Slug {

  /** What the runtime knows about Unicode: lower-casing, canonical decomposition, and white space as seen both by trim
      and by the \s class. */
  datatype Unicode = Unicode(lower: string -> string, nfd: string -> string, isSpace: char -> bool)

  predicate IsAlnum(c: char) {
    'a' <= c <= 'z' || '0' <= c <= '9'
  }

  predicate IsHyphen(c: char) {
    c == '-'
  }

  predicate IsMark(c: char) {
    '\U{0300}' <= c <= '\U{036f}'
  }

  ghost predicate Plain(s: string) {
    forall c :: c in s ==> IsAlnum(c) || IsHyphen(c)
  }

  /** Lower-casing and decomposition leave plain text alone, and neither a plain character nor an underscore is white
      space. */
  ghost predicate Lawful(u: Unicode) {
    && (forall s :: Plain(s) ==> u.lower(s) == s)
    && (forall s :: Plain(s) ==> u.nfd(s) == s)
    && (forall c :: IsAlnum(c) || IsHyphen(c) || c == '_' ==> !u.isSpace(c))
  }

  function Keep(s: string, p: char -> bool): (r: string)
    ensures forall c :: c in r <==> c in s && p(c)
  {
    if s == [] then []
    else
      assert s == [s[0]] + s[1..];
      if p(s[0]) then [s[0]] + Keep(s[1..], p) else Keep(s[1..], p)
  }

  function DropFront(s: string, p: char -> bool): (r: string)
    ensures |r| <= |s| && r == s[|s| - |r|..]
    ensures r == [] || !p(r[0])
    ensures forall i :: 0 <= i < |s| - |r| ==> p(s[i])
  {
    if s == [] || !p(s[0]) then s else DropFront(s[1..], p)
  }

  function DropBack(s: string, p: char -> bool): (r: string)
    ensures r <= s
    ensures r == [] || !p(r[|r| - 1])
    ensures forall i :: |r| <= i < |s| ==> p(s[i])
  {
    if s == [] || !p(s[|s| - 1]) then s else DropBack(s[..|s| - 1], p)
  }

  /** Every maximal run of p becomes one hyphen. */
  function Collapse(s: string, p: char -> bool): string
    decreases |s|
  {
    if s == [] then []
    else if p(s[0]) then "-" + Collapse(DropFront(s[1..], p), p)
    else [s[0]] + Collapse(s[1..], p)
  }

  predicate NotMark(c: char) {
    !IsMark(c)
  }

  function Allowed(u: Unicode): char -> bool {
    (c: char) => IsAlnum(c) || u.isSpace(c) || IsHyphen(c)
  }

  function Separator(u: Unicode): char -> bool {
    (c: char) => u.isSpace(c) || c == '_'
  }

  function Trim(s: string, p: char -> bool): string {
    DropBack(DropFront(s, p), p)
  }

  /** Without diacritics, then without anything but [a-z0-9], white space and hyphens. */
  function Cleaned(u: Unicode, s: string): string {
    Keep(Keep(s, NotMark), Allowed(u))
  }

  /** Runs of separators, then runs of hyphens, become one hyphen. */
  function Hyphenated(u: Unicode, s: string): string {
    Collapse(Collapse(s, Separator(u)), IsHyphen)
  }

  function Decomposed(u: Unicode, text: string): string {
    u.nfd(Trim(u.lower(text), u.isSpace))
  }

  function Slugify(u: Unicode, text: string): string {
    Trim(Hyphenated(u, Cleaned(u, Decomposed(u, text))), IsHyphen)
  }

  ghost predicate NoDouble(s: string) {
    forall i :: 0 <= i < |s| - 1 ==> !(IsHyphen(s[i]) && IsHyphen(s[i + 1]))
  }

  /** The empty string, or non-empty runs of [a-z0-9] with single hyphens between them. */
  ghost predicate IsSlug(s: string) {
    && Plain(s)
    && NoDouble(s)
    && (s != [] ==> IsAlnum(s[0]) && IsAlnum(s[|s| - 1]))
  }

  lemma InDropped(s: string, p: char -> bool, c: char)
    requires c in DropFront(s, p)
    ensures c in s
  {
    var dropped := |s| - |DropFront(s, p)|;
    assert s == s[..dropped] + s[dropped..];
  }

  lemma {:induction false} CollapseChars(s: string, p: char -> bool, c: char)
    requires c in Collapse(s, p) && c != '-'
    ensures c in s && !p(c)
    decreases |s|
  {
    if p(s[0]) {
      CollapseChars(DropFront(s[1..], p), p, c);
      InDropped(s[1..], p, c);
    } else if c != s[0] {
      CollapseChars(s[1..], p, c);
    }
  }

  lemma {:induction false} CollapseHyphens(s: string)
    ensures NoDouble(Collapse(s, IsHyphen))
    ensures s != [] && !IsHyphen(s[0]) ==> Collapse(s, IsHyphen) != [] && Collapse(s, IsHyphen)[0] == s[0]
    decreases |s|
  {
    if s != [] {
      var rest := if IsHyphen(s[0]) then DropFront(s[1..], IsHyphen) else s[1..];
      CollapseHyphens(rest);
      var tail := Collapse(rest, IsHyphen);
      assert Collapse(s, IsHyphen) == [s[0]] + tail;
      forall i | 0 <= i < |[s[0]] + tail| - 1
        ensures !(IsHyphen(([s[0]] + tail)[i]) && IsHyphen(([s[0]] + tail)[i + 1]))
      {
        if i > 0 {
          assert !(IsHyphen(tail[i - 1]) && IsHyphen(tail[i]));
        }
      }
    }
  }

  /** Letters and digits, and what becomes hyphens. */
  ghost predicate Separated(u: Unicode, s: string) {
    forall c :: c in s ==> IsAlnum(c) || IsHyphen(c) || Separator(u)(c)
  }

  lemma HyphenatedPlain(u: Unicode, s: string)
    requires Separated(u, s)
    ensures Plain(Hyphenated(u, s)) && NoDouble(Hyphenated(u, s))
  {
    var spaced := Collapse(s, Separator(u));
    CollapseHyphens(spaced);
    forall c | c in Hyphenated(u, s) ensures IsAlnum(c) || IsHyphen(c) {
      if c != '-' {
        CollapseChars(spaced, IsHyphen, c);
        CollapseChars(s, Separator(u), c);
      }
    }
  }

  lemma {:induction false} DropFrontTidy(s: string)
    requires Plain(s) && NoDouble(s)
    ensures Plain(DropFront(s, IsHyphen)) && NoDouble(DropFront(s, IsHyphen))
    ensures DropFront(s, IsHyphen) != [] ==> IsAlnum(DropFront(s, IsHyphen)[0])
  {
    if s != [] {
      assert s[0] in s;
      if IsHyphen(s[0]) {
        assert forall c :: c in s[1..] ==> c in s;
        assert forall i :: 0 <= i < |s| - 1 ==> s[1..][i] == s[i + 1];
        DropFrontTidy(s[1..]);
      }
    }
  }

  lemma {:induction false} DropBackTidy(s: string)
    requires Plain(s) && NoDouble(s)
    ensures Plain(DropBack(s, IsHyphen)) && NoDouble(DropBack(s, IsHyphen))
    ensures DropBack(s, IsHyphen) != [] ==> IsAlnum(DropBack(s, IsHyphen)[|DropBack(s, IsHyphen)| - 1])
  {
    if s != [] {
      assert s[|s| - 1] in s;
      if IsHyphen(s[|s| - 1]) {
        assert forall c :: c in s[..|s| - 1] ==> c in s;
        DropBackTidy(s[..|s| - 1]);
      }
    }
  }

  lemma TrimmedIsSlug(s: string)
    requires Plain(s) && NoDouble(s)
    ensures IsSlug(Trim(s, IsHyphen))
  {
    DropFrontTidy(s);
    DropBackTidy(DropFront(s, IsHyphen));
  }

  /** Whatever the text and whatever the Unicode tables, the result is a slug. */
  lemma SlugifyGivesSlug(u: Unicode, text: string)
    ensures IsSlug(Slugify(u, text))
  {
    var clean := Cleaned(u, Decomposed(u, text));
    assert forall c :: Allowed(u)(c) ==> IsAlnum(c) || IsHyphen(c) || Separator(u)(c);
    HyphenatedPlain(u, clean);
    TrimmedIsSlug(Hyphenated(u, clean));
  }

  // ------------------------------------------------------------------ fixed points

  lemma {:induction false} KeepAll(s: string, p: char -> bool)
    requires forall c :: c in s ==> p(c)
    ensures Keep(s, p) == s
  {
    if s != [] {
      assert forall c :: c in s[1..] ==> c in s;
      KeepAll(s[1..], p);
    }
  }

  lemma {:induction false} CollapseNothing(s: string, p: char -> bool)
    requires forall c :: c in s ==> !p(c)
    ensures Collapse(s, p) == s
    decreases |s|
  {
    if s != [] {
      assert forall c :: c in s[1..] ==> c in s;
      CollapseNothing(s[1..], p);
    }
  }

  lemma {:induction false} CollapseSingle(s: string)
    requires NoDouble(s)
    ensures Collapse(s, IsHyphen) == s
    decreases |s|
  {
    if s != [] {
      forall i | 0 <= i < |s[1..]| - 1 ensures !(IsHyphen(s[1..][i]) && IsHyphen(s[1..][i + 1])) {
        assert !(IsHyphen(s[i + 1]) && IsHyphen(s[i + 2]));
      }
      CollapseSingle(s[1..]);
      if IsHyphen(s[0]) && |s| > 1 {
        assert !(IsHyphen(s[0]) && IsHyphen(s[1]));
        assert DropFront(s[1..], IsHyphen) == s[1..];
      }
    }
  }

  lemma EndsKept(s: string, p: char -> bool)
    requires s != [] ==> !p(s[0]) && !p(s[|s| - 1])
    ensures Trim(s, p) == s
  {
  }

  lemma CleanedSame(u: Unicode, s: string)
    requires Plain(s)
    ensures Cleaned(u, s) == s
  {
    KeepAll(s, NotMark);
    KeepAll(s, Allowed(u));
  }

  lemma HyphenatedSame(u: Unicode, s: string)
    requires Lawful(u) && Plain(s) && NoDouble(s)
    ensures Hyphenated(u, s) == s
  {
    CollapseNothing(s, Separator(u));
    CollapseSingle(s);
  }

  /** Nothing to trim at either end of a slug. */
  lemma SlugEnds(u: Unicode, s: string)
    requires Lawful(u) && IsSlug(s)
    ensures Trim(s, u.isSpace) == s && Trim(s, IsHyphen) == s
  {
    EndsKept(s, u.isSpace);
    EndsKept(s, IsHyphen);
  }

  /** The strings slugify leaves alone are exactly the slugs. */
  lemma FixedPointsAreSlugs(u: Unicode, s: string)
    requires Lawful(u)
    ensures Slugify(u, s) == s <==> IsSlug(s)
  {
    SlugifyGivesSlug(u, s);
    if IsSlug(s) {
      SlugEnds(u, s);
      assert u.lower(s) == s && u.nfd(s) == s;
      CleanedSame(u, s);
      HyphenatedSame(u, s);
    }
  }

  /** Slugifying twice changes nothing more. */
  lemma SlugifyIdempotent(u: Unicode, text: string)
    requires Lawful(u)
    ensures Slugify(u, Slugify(u, text)) == Slugify(u, text)
  {
    SlugifyGivesSlug(u, text);
    FixedPointsAreSlugs(u, Slugify(u, text));
  }

  // ---------------------------------------------------------- what a slug is made of

  lemma {:induction false} KeepKeep(s: string, p: char -> bool)
    requires forall c :: IsAlnum(c) ==> p(c)
    ensures Keep(Keep(s, p), IsAlnum) == Keep(s, IsAlnum)
  {
    if s != [] {
      KeepKeep(s[1..], p);
      assert p(s[0]) ==> ([s[0]] + Keep(s[1..], p))[1..] == Keep(s[1..], p);
    }
  }

  lemma {:induction false} KeepDropFront(s: string, p: char -> bool)
    requires forall c :: IsAlnum(c) ==> !p(c)
    ensures Keep(DropFront(s, p), IsAlnum) == Keep(s, IsAlnum)
  {
    if s != [] && p(s[0]) {
      KeepDropFront(s[1..], p);
    }
  }

  lemma {:induction false} KeepSnoc(s: string, c: char)
    ensures Keep(s + [c], IsAlnum) == if IsAlnum(c) then Keep(s, IsAlnum) + [c] else Keep(s, IsAlnum)
  {
    if s == [] {
      assert [] + [c] == [c] && [c][1..] == [];
    } else {
      KeepSnoc(s[1..], c);
      assert (s + [c])[1..] == s[1..] + [c];
    }
  }

  lemma {:induction false} KeepDropBack(s: string, p: char -> bool)
    requires forall c :: IsAlnum(c) ==> !p(c)
    ensures Keep(DropBack(s, p), IsAlnum) == Keep(s, IsAlnum)
  {
    if s != [] && p(s[|s| - 1]) {
      KeepDropBack(s[..|s| - 1], p);
      KeepSnoc(s[..|s| - 1], s[|s| - 1]);
      assert s == s[..|s| - 1] + [s[|s| - 1]];
    }
  }

  lemma {:induction false} KeepCollapse(s: string, p: char -> bool)
    requires forall c :: IsAlnum(c) ==> !p(c)
    ensures Keep(Collapse(s, p), IsAlnum) == Keep(s, IsAlnum)
    decreases |s|
  {
    if s != [] {
      var rest := if p(s[0]) then DropFront(s[1..], p) else s[1..];
      KeepCollapse(rest, p);
      KeepDropFront(s[1..], p);
      var c := if p(s[0]) then '-' else s[0];
      assert Collapse(s, p) == [c] + Collapse(rest, p);
      assert ([c] + Collapse(rest, p))[1..] == Collapse(rest, p);
    }
  }

  /** No letter or digit is lost, added or moved: those of the slug are those of the lower-cased, decomposed text. */
  lemma SlugKeepsLettersAndDigits(u: Unicode, text: string)
    requires Lawful(u)
    ensures Keep(Slugify(u, text), IsAlnum) == Keep(Decomposed(u, text), IsAlnum)
  {
    var decomposed := Decomposed(u, text);
    KeepKeep(decomposed, NotMark);
    KeepKeep(Keep(decomposed, NotMark), Allowed(u));
    var clean := Cleaned(u, decomposed);
    KeepCollapse(clean, Separator(u));
    KeepCollapse(Collapse(clean, Separator(u)), IsHyphen);
    var hyphenated := Hyphenated(u, clean);
    KeepDropFront(hyphenated, IsHyphen);
    KeepDropBack(DropFront(hyphenated, IsHyphen), IsHyphen);
  }

  /** Nothing is left exactly of texts without letters and digits. */
  lemma EmptySlugIff(u: Unicode, text: string)
    requires Lawful(u)
    ensures Slugify(u, text) == "" <==> forall c :: c in Decomposed(u, text) ==> !IsAlnum(c)
  {
    SlugKeepsLettersAndDigits(u, text);
    SlugifyGivesSlug(u, text);
    var slug, kept := Slugify(u, text), Keep(Decomposed(u, text), IsAlnum);
    if slug != "" {
      assert slug[0] in kept;
    }
  }

  // ------------------------------------------------------------------- underscores

  /** Underscores are removed, not turned into hyphens: the step before the replacement has already dropped them. */
  lemma UnderscoresAreDropped(u: Unicode, s: string)
    requires Lawful(u) && u.lower(s) == s && u.nfd(s) == s
    requires forall c :: c in s ==> IsAlnum(c) || c == '_'
    ensures Slugify(u, s) == Keep(s, IsAlnum)
  {
    assert s != [] ==> s[0] in s && s[|s| - 1] in s;
    EndsKept(s, u.isSpace);
    KeepAll(s, NotMark);
    KeepSame(s, Allowed(u), IsAlnum);
    var clean := Keep(s, IsAlnum);
    CollapseNothing(clean, Separator(u));
    CollapseNothing(clean, IsHyphen);
    assert clean != [] ==> clean[0] in clean && clean[|clean| - 1] in clean;
    EndsKept(clean, IsHyphen);
  }

  lemma {:induction false} KeepSame(s: string, p: char -> bool, q: char -> bool)
    requires forall c :: c in s ==> p(c) == q(c)
    ensures Keep(s, p) == Keep(s, q)
  {
    if s != [] {
      assert s[0] in s && forall c :: c in s[1..] ==> c in s;
      KeepSame(s[1..], p, q);
    }
  }

  lemma KeepExample()
    ensures Keep("a_b", IsAlnum) == "ab"
  {
    assert "a_b"[1..] == "_b" && "_b"[1..] == "b" && "b"[1..] == "";
    assert Keep("b", IsAlnum) == "b";
    assert Keep("_b", IsAlnum) == "b";
  }

  /** So a name like snake_case loses its separator. */
  lemma UnderscoreExample(u: Unicode)
    requires Lawful(u) && u.lower("a_b") == "a_b" && u.nfd("a_b") == "a_b"
    ensures Slugify(u, "a_b") == "ab"
  {
    UnderscoresAreDropped(u, "a_b");
    KeepExample();
  }

  // ---------------------------------------------- exactly when underscores matter

  /** What the replacement step is said to do: underscores kept until they become hyphens. */
  function AllowedAsCommented(u: Unicode): char -> bool {
    (c: char) => Allowed(u)(c) || c == '_'
  }

  function CleanedAsCommented(u: Unicode, s: string): string {
    Keep(Keep(s, NotMark), AllowedAsCommented(u))
  }

  function SlugifyAsCommented(u: Unicode, text: string): string {
    Trim(Hyphenated(u, CleanedAsCommented(u, Decomposed(u, text))), IsHyphen)
  }

  /** The letters and digits of s, with one hyphen for every gap between two of them. started: one has been seen;
      pending: there is a gap since. */
  function Joined(s: string, started: bool, pending: bool): string {
    if s == [] then []
    else if IsAlnum(s[0]) then (if started && pending then "-" else "") + [s[0]] + Joined(s[1..], true, false)
    else Joined(s[1..], started, true)
  }

  lemma {:induction false} NothingPendingAtStart(s: string, p: bool, q: bool)
    ensures Joined(s, false, p) == Joined(s, false, q)
  {
    if s != [] && !IsAlnum(s[0]) {
      NothingPendingAtStart(s[1..], true, true);
    }
  }

  lemma {:induction false} JoinedDropFront(s: string, p: char -> bool, started: bool)
    requires forall c :: p(c) ==> !IsAlnum(c)
    ensures Joined(DropFront(s, p), started, true) == Joined(s, started, true)
  {
    if s != [] && p(s[0]) {
      JoinedDropFront(s[1..], p, started);
    }
  }

  lemma {:induction false} JoinedCollapse(s: string, p: char -> bool, started: bool, pending: bool)
    requires forall c :: p(c) ==> !IsAlnum(c)
    ensures Joined(Collapse(s, p), started, pending) == Joined(s, started, pending)
    decreases |s|
  {
    if s != [] {
      var rest := if p(s[0]) then DropFront(s[1..], p) else s[1..];
      var c := if p(s[0]) then '-' else s[0];
      assert Collapse(s, p) == [c] + Collapse(rest, p);
      assert ([c] + Collapse(rest, p))[1..] == Collapse(rest, p);
      if p(s[0]) {
        JoinedCollapse(rest, p, started, true);
        JoinedDropFront(s[1..], p, started);
      } else if IsAlnum(s[0]) {
        JoinedCollapse(rest, p, true, false);
      } else {
        JoinedCollapse(rest, p, started, true);
      }
    }
  }

  lemma {:induction false} JoinedSnoc(s: string, c: char, started: bool, pending: bool)
    requires !IsAlnum(c)
    ensures Joined(s + [c], started, pending) == Joined(s, started, pending)
  {
    if s == [] {
      assert s + [c] == [c];
    } else {
      assert (s + [c])[1..] == s[1..] + [c];
      if IsAlnum(s[0]) {
        JoinedSnoc(s[1..], c, true, false);
      } else {
        JoinedSnoc(s[1..], c, started, true);
      }
    }
  }

  lemma {:induction false} JoinedDropBack(s: string, p: char -> bool)
    requires forall c :: p(c) ==> !IsAlnum(c)
    ensures Joined(DropBack(s, p), false, false) == Joined(s, false, false)
  {
    if s != [] && p(s[|s| - 1]) {
      JoinedDropBack(s[..|s| - 1], p);
      JoinedSnoc(s[..|s| - 1], s[|s| - 1], false, false);
      assert s == s[..|s| - 1] + [s[|s| - 1]];
    }
  }

  lemma JoinedTrim(s: string)
    ensures Joined(Trim(s, IsHyphen), false, false) == Joined(s, false, false)
  {
    var t := DropFront(s, IsHyphen);
    JoinedDropBack(t, IsHyphen);
    JoinedDropFront(s, IsHyphen, false);
    NothingPendingAtStart(s, false, true);
    NothingPendingAtStart(t, false, true);
  }

  /** A slug, or what is left of one from some place on. */
  ghost predicate Tidy(s: string) {
    Plain(s) && NoDouble(s) && (s != [] ==> IsAlnum(s[|s| - 1]))
  }

  lemma TidyTail(s: string)
    requires Tidy(s) && s != []
    ensures Tidy(s[1..]) && (IsAlnum(s[0]) || (IsHyphen(s[0]) && |s| > 1 && IsAlnum(s[1])))
  {
    var rest := s[1..];
    assert s[0] in s && forall c :: c in rest ==> c in s;
    forall i | 0 <= i < |rest| - 1 ensures !(IsHyphen(rest[i]) && IsHyphen(rest[i + 1])) {
      assert !(IsHyphen(s[i + 1]) && IsHyphen(s[i + 2]));
    }
    if IsHyphen(s[0]) {
      assert |s| > 1 ==> s[1] in s && !(IsHyphen(s[0]) && IsHyphen(s[0 + 1]));
    }
  }

  lemma {:induction false} JoinedTail(s: string, pending: bool)
    requires Tidy(s) && (pending ==> s != [] && IsAlnum(s[0]))
    ensures Joined(s, true, pending) == (if pending then "-" else "") + s
  {
    if s != [] {
      TidyTail(s);
      JoinedTail(s[1..], IsHyphen(s[0]));
      assert s == [s[0]] + s[1..];
    }
  }

  lemma JoinedSlug(s: string)
    requires IsSlug(s)
    ensures Joined(s, false, false) == s
  {
    if s != [] {
      TidyTail(s);
      JoinedTail(s[1..], false);
      assert s == [s[0]] + s[1..];
    }
  }

  /** What the last three replacements do: join the letters and digits. */
  lemma HyphenatedIsJoined(u: Unicode, s: string)
    requires Lawful(u) && Separated(u, s)
    ensures Trim(Hyphenated(u, s), IsHyphen) == Joined(s, false, false)
  {
    HyphenatedPlain(u, s);
    TrimmedIsSlug(Hyphenated(u, s));
    JoinedSlug(Trim(Hyphenated(u, s), IsHyphen));
    JoinedTrim(Hyphenated(u, s));
    JoinedCollapse(Collapse(s, Separator(u)), IsHyphen, false, false);
    JoinedCollapse(s, Separator(u), false, false);
  }

  predicate IsUnderscore(c: char) {
    c == '_'
  }

  predicate NotUnderscore(c: char) {
    c != '_'
  }

  /** Somewhere nothing but underscores stands between two letters or digits. */
  ghost predicate JoinedByUnderscores(s: string) {
    exists i, j :: 0 <= i < i + 1 < j < |s| && Between(s, i, j)
  }

  predicate Between(s: string, i: nat, j: nat)
    requires i < j < |s|
  {
    IsAlnum(s[i]) && IsAlnum(s[j]) && forall k :: i < k < j ==> IsUnderscore(s[k])
  }

  /** Underscores, at least one unless seen, and then a letter or digit. */
  ghost predicate Led(s: string, seen: bool) {
    exists j :: 0 <= j < |s| && (seen || j > 0) && LedTo(s, j)
  }

  predicate LedTo(s: string, j: nat)
    requires j < |s|
  {
    IsAlnum(s[j]) && forall k :: 0 <= k < j ==> IsUnderscore(s[k])
  }

  lemma LedCons(s: string, seen: bool)
    requires s != []
    ensures Led(s, seen) <==> (seen && IsAlnum(s[0])) || (IsUnderscore(s[0]) && Led(s[1..], true))
  {
    var rest := s[1..];
    if Led(s, seen) {
      var j :| 0 <= j < |s| && (seen || j > 0) && LedTo(s, j);
      assert j > 0 ==> LedTo(rest, j - 1);
    }
    if seen && IsAlnum(s[0]) {
      assert LedTo(s, 0);
    }
    if IsUnderscore(s[0]) && Led(rest, true) {
      var j :| 0 <= j < |rest| && LedTo(rest, j);
      assert LedTo(s, j + 1);
    }
  }

  lemma JoinedByCons(s: string)
    requires s != []
    ensures JoinedByUnderscores(s) <==> JoinedByUnderscores(s[1..]) || (IsAlnum(s[0]) && Led(s[1..], false))
  {
    var rest := s[1..];
    if JoinedByUnderscores(s) {
      var i, j :| 0 <= i < i + 1 < j < |s| && Between(s, i, j);
      if i > 0 {
        assert Between(rest, i - 1, j - 1);
      } else {
        assert LedTo(rest, j - 1);
      }
    }
    if JoinedByUnderscores(rest) {
      var i, j :| 0 <= i < i + 1 < j < |rest| && Between(rest, i, j);
      assert Between(s, i + 1, j + 1);
    }
    if IsAlnum(s[0]) && Led(rest, false) {
      var j :| 0 < j < |rest| && LedTo(rest, j);
      assert Between(s, 0, j + 1);
    }
  }

  /** Underscores read as gaps, or left out: never fewer hyphens, and none more exactly when nowhere underscores alone
      make a gap. */
  lemma {:induction false} UnderscoresCompared(s: string, started: bool, pending: bool, pendingWithout: bool)
    requires pendingWithout ==> pending
    ensures var with_, without := Joined(s, started, pending), Joined(Keep(s, NotUnderscore), started, pendingWithout);
            && |without| <= |with_|
            && (with_ == without <==> |with_| == |without|)
            && (with_ == without <==>
                !(JoinedByUnderscores(s) || (started && !pendingWithout && Led(s, pending))))
  {
    if s != [] {
      LedCons(s, pending);
      JoinedByCons(s);
      var rest := s[1..];
      if IsAlnum(s[0]) {
        UnderscoresCompared(rest, true, false, false);
        assert Keep(s, NotUnderscore) == [s[0]] + Keep(rest, NotUnderscore);
        assert Keep(s, NotUnderscore)[1..] == Keep(rest, NotUnderscore);
      } else if IsUnderscore(s[0]) {
        UnderscoresCompared(rest, started, true, pendingWithout);
      } else {
        UnderscoresCompared(rest, started, true, true);
        assert Keep(s, NotUnderscore)[1..] == Keep(rest, NotUnderscore);
      }
    }
  }

  lemma {:induction false} CleanedWithoutUnderscores(u: Unicode, s: string)
    requires Lawful(u)
    ensures Keep(s, Allowed(u)) == Keep(Keep(s, AllowedAsCommented(u)), NotUnderscore)
  {
    if s != [] {
      CleanedWithoutUnderscores(u, s[1..]);
      var rest := Keep(s[1..], AllowedAsCommented(u));
      assert AllowedAsCommented(u)(s[0]) ==> ([s[0]] + rest)[1..] == rest;
    }
  }

  /** For all texts: the slug is what the comment says, underscores turned into hyphens, exactly when nowhere in the
      cleaned text nothing but underscores stands between two letters or digits. */
  lemma AsCommentedIff(u: Unicode, text: string)
    requires Lawful(u)
    ensures Slugify(u, text) == SlugifyAsCommented(u, text) <==>
            !JoinedByUnderscores(CleanedAsCommented(u, Decomposed(u, text)))
  {
    var unmarked := Keep(Decomposed(u, text), NotMark);
    var clean := Keep(unmarked, AllowedAsCommented(u));
    CleanedWithoutUnderscores(u, unmarked);
    assert Separated(u, clean);
    assert Separated(u, Keep(clean, NotUnderscore));
    HyphenatedIsJoined(u, clean);
    HyphenatedIsJoined(u, Keep(clean, NotUnderscore));
    UnderscoresCompared(clean, false, false, false);
  }

  // ------------------------------------------------------------------ in one pass

  /** The slug in one pass over the decomposed text: letters and digits stay, white space and hyphens make a gap, a gap
      between two letters or digits is one hyphen, and everything else is dropped without making one. */
  function OnePass(u: Unicode, s: string, started: bool, pending: bool): string {
    if s == [] then []
    else
      var c := s[0];
      if 'a' <= c <= 'z' || '0' <= c <= '9' then
        (if started && pending then "-" else "") + [c] + OnePass(u, s[1..], true, false)
      else if c == '-' || (u.isSpace(c) && !('\U{0300}' <= c <= '\U{036f}')) then OnePass(u, s[1..], started, true)
      else OnePass(u, s[1..], started, pending)
  }

  lemma {:induction false} JoinedKept(u: Unicode, s: string, started: bool, pending: bool)
    ensures Joined(Cleaned(u, s), started, pending) == OnePass(u, s, started, pending)
  {
    if s != [] {
      var kept := Keep(s[1..], NotMark);
      var rest := Cleaned(u, s[1..]);
      assert Keep(s, NotMark) == if NotMark(s[0]) then [s[0]] + kept else kept;
      assert ([s[0]] + kept)[1..] == kept && ([s[0]] + rest)[1..] == rest;
      if IsAlnum(s[0]) {
        JoinedKept(u, s[1..], true, false);
      } else if IsHyphen(s[0]) || (u.isSpace(s[0]) && NotMark(s[0])) {
        JoinedKept(u, s[1..], started, true);
      } else {
        JoinedKept(u, s[1..], started, pending);
      }
    }
  }

  /** For all texts the whole chain of replacements is that one pass. */
  lemma SlugifyIsOnePass(u: Unicode, text: string)
    requires Lawful(u)
    ensures Slugify(u, text) == OnePass(u, u.nfd(Trim(u.lower(text), u.isSpace)), false, false)
  {
    var clean := Cleaned(u, Decomposed(u, text));
    assert Separated(u, clean);
    HyphenatedIsJoined(u, clean);
    JoinedKept(u, Decomposed(u, text), false, false);
  }
}
