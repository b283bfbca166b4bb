/** Replacing {{name}} tokens in a template: a regular expression scanned once from left to right. */
module Templates {
  import opened Wrappers

  /** What a name is bound to; None leaves its token as it is. */
  type Lookup = string -> Option<string>

  predicate IsWord(c: char) {
    'a' <= c <= 'z' || 'A' <= c <= 'Z' || '0' <= c <= '9' || c == '_'
  }

  /** White space as the \s class has it: no word character and no brace. */
  ghost predicate LawfulSpace(isSpace: char -> bool) {
    forall c :: isSpace(c) ==> !IsWord(c) && c != '{' && c != '}'
  }

  /** Where the longest run of p from i on ends. */
  function Span(s: string, i: nat, p: char -> bool): (j: nat)
    requires i <= |s|
    ensures i <= j <= |s| && forall k :: i <= k < j ==> p(s[k])
    ensures j < |s| ==> !p(s[j])
    decreases |s| - i
  {
    if i < |s| && p(s[i]) then Span(s, i + 1, p) else i
  }

  datatype Found = Found(length: nat, key: string)

  predicate Opens(s: string) {
    |s| >= 2 && s[0] == '{' && s[1] == '{'
  }

  /** The token at the start of s. The character classes between the braces exclude one another, so taking each as far
      as it goes is the only way to match. */
  function TokenAt(s: string, isSpace: char -> bool): (m: Option<Found>)
    ensures m.Some? ==> 5 <= m.value.length <= |s| && Opens(s)
  {
    if !Opens(s) then None
    else
      var a := Span(s, 2, isSpace);
      var b := Span(s, a, IsWord);
      var c := Span(s, b, isSpace);
      if a < b && c + 2 <= |s| && s[c] == '}' && s[c + 1] == '}' then Some(Found(c + 2, s[a..b])) else None
  }

  /** What a scan cuts a template into. */
  datatype Chunk = Char(c: char) | Match(text: string, key: string)

  /** Left to right, the leftmost token first, going on after it. */
  function Scan(template: string, isSpace: char -> bool): seq<Chunk>
    decreases |template|
  {
    if template == [] then []
    else
      var m := TokenAt(template, isSpace);
      if m.Some?
      then [Match(template[..m.value.length], m.value.key)] + Scan(template[m.value.length..], isSpace)
      else [Char(template[0])] + Scan(template[1..], isSpace)
  }

  function Source(chunk: Chunk): string {
    match chunk
    case Char(c) => [c]
    case Match(text, _) => text
  }

  function Replacement(chunk: Chunk, lookup: Lookup): string {
    if chunk.Match? && lookup(chunk.key).Some? then lookup(chunk.key).value else Source(chunk)
  }

  function Replaced(chunks: seq<Chunk>, lookup: Lookup): string {
    if chunks == [] then [] else Replacement(chunks[0], lookup) + Replaced(chunks[1..], lookup)
  }

  /** The matches are those of the template itself; what replaces one is not looked at again. */
  function Interpolate(template: string, lookup: Lookup, isSpace: char -> bool): string {
    Replaced(Scan(template, isSpace), lookup)
  }

  /** The names of the tokens the scan finds. */
  function Keys(template: string, isSpace: char -> bool): set<string> {
    set chunk | chunk in Scan(template, isSpace) && chunk.Match? :: chunk.key
  }

  /** vars[key] on a JavaScript object: its own property, even when that is null or undefined (None), else one
      inherited from Object.prototype. */
  function Bound(vars: map<string, Option<string>>, inherited: map<string, string>): Lookup {
    key => if key in vars then vars[key] else if key in inherited then Some(inherited[key]) else None
  }

  // ------------------------------------------------------------------ identity

  /** A value that cannot pass for the beginning of the token it replaces. */
  predicate Visible(value: string) {
    value != "" && (value[0] != '{' || (|value| >= 2 && value[1] != '{'))
  }

  /** Chunks as a scan makes them. */
  ghost predicate FromScan(chunks: seq<Chunk>) {
    forall chunk :: chunk in chunks && chunk.Match? ==> Opens(chunk.text)
  }

  function Sources(chunks: seq<Chunk>): string {
    if chunks == [] then [] else Source(chunks[0]) + Sources(chunks[1..])
  }

  /** A scan loses nothing. */
  lemma {:induction false} ScanCovers(template: string, isSpace: char -> bool)
    ensures Sources(Scan(template, isSpace)) == template
    ensures FromScan(Scan(template, isSpace))
    decreases |template|
  {
    if template != [] {
      var m := TokenAt(template, isSpace);
      var n := if m.Some? then m.value.length else 1;
      ScanCovers(template[n..], isSpace);
      assert template == template[..n] + template[n..];
      assert Scan(template, isSpace)[1..] == Scan(template[n..], isSpace);
    }
  }

  /** Every match is the token that stands there, and no other character starts one. */
  ghost predicate Leftmost(chunks: seq<Chunk>, isSpace: char -> bool) {
    chunks != [] ==>
      && TokenAt(Sources(chunks), isSpace) ==
         (if chunks[0].Match? then Some(Found(|chunks[0].text|, chunks[0].key)) else None)
      && Leftmost(chunks[1..], isSpace)
  }

  /** What a scan cuts off first. */
  function Cut(s: string, isSpace: char -> bool): Chunk
    requires s != ""
  {
    var m := TokenAt(s, isSpace);
    if m.Some? then Match(s[..m.value.length], m.value.key) else Char(s[0])
  }

  lemma ScanCuts(s: string, isSpace: char -> bool)
    requires s != ""
    ensures var cut := Cut(s, isSpace);
            && Source(cut) <= s
            && Scan(s, isSpace) == [cut] + Scan(s[|Source(cut)|..], isSpace)
  {
  }

  lemma CutIs(first: Chunk, rest: string, isSpace: char -> bool)
    requires Source(first) != ""
    ensures Cut(Source(first) + rest, isSpace) == first <==>
            TokenAt(Source(first) + rest, isSpace) ==
            (if first.Match? then Some(Found(|first.text|, first.key)) else None)
  {
    var s := Source(first) + rest;
    assert s[..|Source(first)|] == Source(first);
  }

  /** There is just one such way to cut a template up, and the scan finds it. */
  lemma {:induction false} ScanIsLeftmost(chunks: seq<Chunk>, isSpace: char -> bool)
    ensures Scan(Sources(chunks), isSpace) == chunks <==> Leftmost(chunks, isSpace)
    decreases |chunks|
  {
    if chunks != [] && Source(chunks[0]) != "" {
      var first, rest := chunks[0], chunks[1..];
      var s := Source(first) + Sources(rest);
      ScanIsLeftmost(rest, isSpace);
      CutIs(first, Sources(rest), isSpace);
      ScanCuts(s, isSpace);
      assert s[|Source(first)|..] == Sources(rest);
      assert chunks == [first] + rest;
    } else if chunks != [] {
      NoEmptyCut(chunks, isSpace);
    }
  }

  lemma NoEmptyCut(chunks: seq<Chunk>, isSpace: char -> bool)
    requires chunks != [] && Source(chunks[0]) == ""
    ensures Scan(Sources(chunks), isSpace) != chunks && !Leftmost(chunks, isSpace)
  {
    if Sources(chunks) != "" {
      ScanCuts(Sources(chunks), isSpace);
    }
  }

  ghost predicate NoneBound(chunks: seq<Chunk>, lookup: Lookup) {
    forall chunk :: chunk in chunks && chunk.Match? ==> lookup(chunk.key).None?
  }

  lemma {:induction false} NothingReplaced(chunks: seq<Chunk>, lookup: Lookup)
    requires NoneBound(chunks, lookup)
    ensures Replaced(chunks, lookup) == Sources(chunks)
  {
    if chunks != [] {
      assert chunks[0] in chunks && forall chunk :: chunk in chunks[1..] ==> chunk in chunks;
      NothingReplaced(chunks[1..], lookup);
    }
  }

  lemma ShownAtOnce(value: string, x: string, text: string, y: string)
    requires Visible(value) && Opens(text)
    ensures value + x != text + y
  {
    assert (text + y)[0] == '{' && (text + y)[1] == '{';
    assert (value + x)[0] == value[0] && (|value| >= 2 ==> (value + x)[1] == value[1]);
  }

  lemma {:induction false} ReplacedShows(chunks: seq<Chunk>, lookup: Lookup)
    requires FromScan(chunks) && Replaced(chunks, lookup) == Sources(chunks)
    requires forall chunk :: chunk in chunks && chunk.Match? && lookup(chunk.key).Some? ==>
               Visible(lookup(chunk.key).value)
    ensures NoneBound(chunks, lookup)
  {
    if chunks != [] {
      var chunk, rest := chunks[0], chunks[1..];
      assert chunk in chunks && forall c :: c in rest ==> c in chunks;
      if chunk.Match? && lookup(chunk.key).Some? {
        ShownAtOnce(lookup(chunk.key).value, Replaced(rest, lookup), chunk.text, Sources(rest));
        assert false;
      }
      SameFront(Source(chunk), Replaced(rest, lookup), Sources(rest));
      ReplacedShows(rest, lookup);
      assert chunks == [chunk] + rest;
    }
  }

  /** A template none of whose tokens is bound is left alone, and only such a template is, unless a bound value could
      pass for the beginning of a token. */
  lemma UnchangedIff(template: string, lookup: Lookup, isSpace: char -> bool)
    ensures (forall k :: k in Keys(template, isSpace) ==> lookup(k).None?) ==>
              Interpolate(template, lookup, isSpace) == template
    ensures (forall k :: k in Keys(template, isSpace) && lookup(k).Some? ==> Visible(lookup(k).value)) ==>
              Interpolate(template, lookup, isSpace) == template ==>
              forall k :: k in Keys(template, isSpace) ==> lookup(k).None?
  {
    var chunks := Scan(template, isSpace);
    ScanCovers(template, isSpace);
    assert forall chunk :: chunk in chunks && chunk.Match? ==> chunk.key in Keys(template, isSpace);
    if forall k :: k in Keys(template, isSpace) ==> lookup(k).None? {
      NothingReplaced(chunks, lookup);
    } else if && (forall k :: k in Keys(template, isSpace) && lookup(k).Some? ==> Visible(lookup(k).value))
              && Interpolate(template, lookup, isSpace) == template {
      ReplacedShows(chunks, lookup);
    }
  }

  /** With no variables given a template comes back unchanged exactly when no token names a property that every object
      inherits. */
  lemma NothingBoundIsIdentityIff(template: string, inherited: map<string, string>, isSpace: char -> bool)
    requires forall k :: k in inherited ==> Visible(inherited[k])
    ensures Interpolate(template, Bound(map[], inherited), isSpace) == template <==>
            forall k :: k in Keys(template, isSpace) ==> k !in inherited
  {
    UnchangedIff(template, Bound(map[], inherited), isSpace);
  }

  // ------------------------------------------------------------------ parse and render

  /** A template as written: literal text, or a token with the white space inside its braces. */
  datatype Piece = Text(text: string) | Token(pre: string, key: string, post: string)

  function TextOf(p: Piece): string {
    match p
    case Text(text) => text
    case Token(pre, key, post) => "{{" + pre + key + post + "}}"
  }

  function Render(ps: seq<Piece>): string {
    if ps == [] then [] else TextOf(ps[0]) + Render(ps[1..])
  }

  /** Text in which no two opening braces meet, nor could with what follows. */
  predicate Quiet(text: string) {
    forall i :: 0 <= i < |text| && text[i] == '{' ==> i + 1 < |text| && text[i + 1] != '{'
  }

  ghost predicate WellFormed(p: Piece, isSpace: char -> bool) {
    match p
    case Text(text) => Quiet(text)
    case Token(pre, key, post) =>
      && key != ""
      && (forall c :: c in pre ==> isSpace(c))
      && (forall c :: c in key ==> IsWord(c))
      && (forall c :: c in post ==> isSpace(c))
  }

  /** A bound token becomes text. */
  function Substitute(p: Piece, lookup: Lookup): Piece {
    if p.Token? && lookup(p.key).Some? then Text(lookup(p.key).value) else p
  }

  function SubstituteAll(ps: seq<Piece>, lookup: Lookup): seq<Piece> {
    if ps == [] then [] else [Substitute(ps[0], lookup)] + SubstituteAll(ps[1..], lookup)
  }

  lemma SpanIs(s: string, i: nat, j: nat, p: char -> bool)
    requires i <= j <= |s| && forall k :: i <= k < j ==> p(s[k])
    requires j < |s| ==> !p(s[j])
    ensures Span(s, i, p) == j
  {
  }

  /** What the regular expression asks of the start of s: white space from 2, a name from a, white space from b and the
      closing braces at c. */
  ghost predicate Matches(s: string, a: nat, b: nat, c: nat, isSpace: char -> bool) {
    && 2 <= a < b <= c <= |s| - 2
    && Opens(s) && s[c] == '}' && s[c + 1] == '}'
    && (forall i :: 2 <= i < a || b <= i < c ==> isSpace(s[i]))
    && (forall i :: a <= i < b ==>
          'a' <= s[i] <= 'z' || 'A' <= s[i] <= 'Z' || '0' <= s[i] <= '9' || s[i] == '_')
  }

  lemma TokenAtIs(s: string, a: nat, b: nat, c: nat, isSpace: char -> bool)
    requires LawfulSpace(isSpace) && Matches(s, a, b, c, isSpace)
    ensures TokenAt(s, isSpace) == Some(Found(c + 2, s[a..b]))
  {
    SpanIs(s, 2, a, isSpace);
    SpanIs(s, a, b, IsWord);
    SpanIs(s, b, c, isSpace);
  }

  /** A token is found exactly when some split of s matches, however the search for one backtracks, and then the
      captured name is the same for every split. */
  lemma TokenAtIff(s: string, m: Found, isSpace: char -> bool)
    requires LawfulSpace(isSpace)
    ensures TokenAt(s, isSpace) == Some(m) <==>
            exists a: nat, b: nat, c: nat :: Matches(s, a, b, c, isSpace) && m == Found(c + 2, s[a..b])
  {
    if TokenAt(s, isSpace) == Some(m) {
      var a := Span(s, 2, isSpace);
      var b := Span(s, a, IsWord);
      assert Matches(s, a, b, Span(s, b, isSpace), isSpace);
    }
    forall a: nat, b: nat, c: nat | Matches(s, a, b, c, isSpace)
      ensures TokenAt(s, isSpace) == Some(Found(c + 2, s[a..b]))
    {
      TokenAtIs(s, a, b, c, isSpace);
    }
  }

  /** The parts of open + pre + key + post + close + rest, each where it stands. */
  lemma Parts(s: string, open: string, pre: string, key: string, post: string, close: string, rest: string)
    returns (a: nat, b: nat, c: nat)
    requires s == open + pre + key + post + close + rest
    ensures a == |open| + |pre| && b == a + |key| && c == b + |post| && |s| == c + |close| + |rest|
    ensures s[..|open|] == open && s[|open|..a] == pre && s[a..b] == key && s[b..c] == post
    ensures s[c..c + |close|] == close
  {
    a := |open| + |pre|;
    b := a + |key|;
    c := b + |post|;
  }

  lemma SlicesMatch(s: string, a: nat, b: nat, c: nat, isSpace: char -> bool)
    requires 2 <= a < b <= c <= |s| - 2 && Opens(s[..2]) && s[c..c + 2][0] == s[c..c + 2][1] == '}'
    requires forall x :: x in s[2..a] || x in s[b..c] ==> isSpace(x)
    requires forall x :: x in s[a..b] ==> IsWord(x)
    ensures Matches(s, a, b, c, isSpace)
  {
    assert s[0] == s[..2][0] && s[1] == s[..2][1] && s[c] == s[c..c + 2][0] && s[c + 1] == s[c..c + 2][1];
    assert forall i :: 2 <= i < a ==> s[i] in s[2..a];
    assert forall i :: a <= i < b ==> s[i] in s[a..b];
    assert forall i :: b <= i < c ==> s[i] in s[b..c];
  }

  lemma SlicesFound(s: string, key: string, a: nat, b: nat, c: nat, isSpace: char -> bool)
    requires LawfulSpace(isSpace) && 2 <= a < b <= c <= |s| - 2 && s[a..b] == key
    requires Opens(s[..2]) && s[c..c + 2][0] == s[c..c + 2][1] == '}'
    requires forall x :: x in s[2..a] || x in s[b..c] ==> isSpace(x)
    requires forall x :: x in key ==> IsWord(x)
    ensures TokenAt(s, isSpace) == Some(Found(c + 2, key))
  {
    SlicesMatch(s, a, b, c, isSpace);
    TokenAtIs(s, a, b, c, isSpace);
  }

  lemma PartsFound(s: string, open: string, pre: string, key: string, post: string, close: string, rest: string,
                   isSpace: char -> bool)
    requires LawfulSpace(isSpace) && WellFormed(Token(pre, key, post), isSpace)
    requires |open| == |close| == 2 && Opens(open) && close[0] == close[1] == '}'
    requires s == open + pre + key + post + close + rest
    ensures TokenAt(s, isSpace) == Some(Found(4 + |pre| + |key| + |post|, key))
  {
    var a, b, c := Parts(s, open, pre, key, post, close, rest);
    SlicesFound(s, key, a, b, c, isSpace);
  }

  lemma TokenFound(t: Piece, rest: string, isSpace: char -> bool)
    requires LawfulSpace(isSpace) && t.Token? && WellFormed(t, isSpace)
    ensures TokenAt(TextOf(t) + rest, isSpace) == Some(Found(|TextOf(t)|, t.key))
  {
    PartsFound(TextOf(t) + rest, "{{", t.pre, t.key, t.post, "}}", rest, isSpace);
  }

  lemma FirstApart(text: string, rest: string)
    requires text != []
    ensures text + rest == [text[0]] + (text[1..] + rest)
  {
  }

  lemma {:induction false} TextPasses(text: string, rest: string, lookup: Lookup, isSpace: char -> bool)
    requires Quiet(text)
    ensures Interpolate(text + rest, lookup, isSpace) == text + Interpolate(rest, lookup, isSpace)
  {
    if text == [] {
      assert text + rest == rest;
    } else {
      assert forall i :: 0 <= i < |text[1..]| ==> text[1..][i] == text[i + 1];
      TextPasses(text[1..], rest, lookup, isSpace);
      assert text[0] == '{' ==> (text[1..] + rest)[0] == text[0 + 1];
      PlainCharPasses(text[0], text[1..] + rest, lookup, isSpace);
      FirstApart(text, rest);
      FirstApart(text, Interpolate(rest, lookup, isSpace));
    }
  }

  lemma PlainCharPasses(c: char, rest: string, lookup: Lookup, isSpace: char -> bool)
    requires c == '{' ==> rest != [] && rest[0] != '{'
    ensures Interpolate([c] + rest, lookup, isSpace) == [c] + Interpolate(rest, lookup, isSpace)
  {
    assert ([c] + rest)[1..] == rest;
    var chunks := Scan(rest, isSpace);
    assert Scan([c] + rest, isSpace) == [Char(c)] + chunks;
    assert ([Char(c)] + chunks)[1..] == chunks;
  }

  lemma TokenPasses(t: Piece, rest: string, lookup: Lookup, isSpace: char -> bool)
    requires LawfulSpace(isSpace) && t.Token? && WellFormed(t, isSpace)
    ensures Interpolate(TextOf(t) + rest, lookup, isSpace) ==
            (if lookup(t.key).Some? then lookup(t.key).value else TextOf(t)) + Interpolate(rest, lookup, isSpace)
  {
    TokenFound(t, rest, isSpace);
    var text := TextOf(t);
    assert (text + rest)[..|text|] == text && (text + rest)[|text|..] == rest;
    var chunks := Scan(rest, isSpace);
    assert Scan(text + rest, isSpace) == [Match(text, t.key)] + chunks;
    assert ([Match(text, t.key)] + chunks)[1..] == chunks;
  }

  /** Interpolating a written template is substituting piece by piece, whatever the values contain: a value is never
      scanned for tokens of its own. */
  lemma {:induction false} InterpolateIsSubstitute(ps: seq<Piece>, lookup: Lookup, isSpace: char -> bool)
    requires LawfulSpace(isSpace) && forall p :: p in ps ==> WellFormed(p, isSpace)
    ensures Interpolate(Render(ps), lookup, isSpace) == Render(SubstituteAll(ps, lookup))
  {
    if ps != [] {
      var p, rest := ps[0], Render(ps[1..]);
      InterpolateIsSubstitute(ps[1..], lookup, isSpace);
      assert WellFormed(p, isSpace);
      if p.Text? {
        TextPasses(p.text, rest, lookup, isSpace);
      } else {
        TokenPasses(p, rest, lookup, isSpace);
      }
      assert SubstituteAll(ps, lookup)[1..] == SubstituteAll(ps[1..], lookup);
    }
  }

  // -------------------------------------------------------------------- two passes

  /** Bound by the first, else by the second. */
  function Either(first: Lookup, second: Lookup): Lookup {
    key => if first(key).Some? then first(key) else second(key)
  }

  /** What the lookup gives for this template's tokens can begin no token. */
  ghost predicate QuietValues(ps: seq<Piece>, lookup: Lookup) {
    forall p :: p in ps && p.Token? && lookup(p.key).Some? ==> Quiet(lookup(p.key).value)
  }

  lemma {:induction false} SubstituteTwice(ps: seq<Piece>, first: Lookup, second: Lookup, isSpace: char -> bool)
    requires (forall p :: p in ps ==> WellFormed(p, isSpace)) && QuietValues(ps, first)
    ensures SubstituteAll(SubstituteAll(ps, first), second) == SubstituteAll(ps, Either(first, second))
    ensures forall p :: p in SubstituteAll(ps, first) ==> WellFormed(p, isSpace)
  {
    if ps != [] {
      assert ps == [ps[0]] + ps[1..];
      SubstituteTwice(ps[1..], first, second, isSpace);
      assert SubstituteAll(ps, first)[1..] == SubstituteAll(ps[1..], first);
      assert WellFormed(ps[0], isSpace);
    }
  }

  /** Interpolating with one lookup and then with another is interpolating once with both, the first winning, for
      templates whose literal text and first values can begin no token. */
  lemma TwoPassesAreOne(ps: seq<Piece>, first: Lookup, second: Lookup, isSpace: char -> bool)
    requires LawfulSpace(isSpace) && (forall p :: p in ps ==> WellFormed(p, isSpace)) && QuietValues(ps, first)
    ensures Interpolate(Interpolate(Render(ps), first, isSpace), second, isSpace) ==
            Interpolate(Render(ps), Either(first, second), isSpace)
  {
    InterpolateIsSubstitute(ps, first, isSpace);
    SubstituteTwice(ps, first, second, isSpace);
    InterpolateIsSubstitute(SubstituteAll(ps, first), second, isSpace);
    InterpolateIsSubstitute(ps, Either(first, second), isSpace);
  }

  // ------------------------------------------------------- two sets of variables

  /** A variable object; None is null. */
  type Vars = map<string, Option<string>>

  ghost predicate QuietVars(vars: Vars) {
    forall k :: k in vars && vars[k].Some? ==> Quiet(vars[k].value)
  }

  ghost predicate NeverNull(vars: Vars) {
    forall k :: k in vars ==> vars[k].Some?
  }

  /** Two passes with two variable objects are one with both. */
  ghost predicate PassesAgree(ps: seq<Piece>, v1: Vars, v2: Vars, inherited: map<string, string>,
                              isSpace: char -> bool)
  {
    Interpolate(Interpolate(Render(ps), Bound(v1, inherited), isSpace), Bound(v2, inherited), isSpace) ==
    Interpolate(Render(ps), Bound(v1 + v2, inherited), isSpace)
  }

  /** No token of the template names both one of these variables and a property every object inherits. */
  ghost predicate NoneInherited(ps: seq<Piece>, names: set<string>, inherited: map<string, string>) {
    forall p :: p in ps && p.Token? && p.key in names ==> p.key !in inherited
  }

  lemma {:induction false} SubstituteSame(ps: seq<Piece>, a: Lookup, b: Lookup)
    requires forall p :: p in ps && p.Token? ==> a(p.key) == b(p.key)
    ensures SubstituteAll(ps, a) == SubstituteAll(ps, b)
  {
    if ps != [] {
      assert ps[0] in ps && forall p :: p in ps[1..] ==> p in ps;
      SubstituteSame(ps[1..], a, b);
    }
  }

  /** Two passes and one, as the pieces they leave. */
  lemma PassesAsPieces(ps: seq<Piece>, v1: Vars, v2: Vars, inherited: map<string, string>, isSpace: char -> bool)
    requires LawfulSpace(isSpace) && (forall p :: p in ps ==> WellFormed(p, isSpace))
    requires QuietVars(v1) && forall k :: k in inherited ==> Quiet(inherited[k])
    ensures var twice := SubstituteAll(ps, Either(Bound(v1, inherited), Bound(v2, inherited)));
            var once := SubstituteAll(ps, Bound(v1 + v2, inherited));
            PassesAgree(ps, v1, v2, inherited, isSpace) <==> Render(twice) == Render(once)
  {
    TwoPassesAreOne(ps, Bound(v1, inherited), Bound(v2, inherited), isSpace);
    InterpolateIsSubstitute(ps, Either(Bound(v1, inherited), Bound(v2, inherited)), isSpace);
    InterpolateIsSubstitute(ps, Bound(v1 + v2, inherited), isSpace);
  }

  lemma AgreeWhenNoneInherited(ps: seq<Piece>, v1: Vars, v2: Vars, inherited: map<string, string>,
                               isSpace: char -> bool)
    requires LawfulSpace(isSpace) && (forall p :: p in ps ==> WellFormed(p, isSpace))
    requires QuietVars(v1) && (forall k :: k in inherited ==> Quiet(inherited[k])) && v1.Keys !! v2.Keys
    requires NoneInherited(ps, v2.Keys, inherited) && (NeverNull(v1) || NoneInherited(ps, v1.Keys, inherited))
    ensures PassesAgree(ps, v1, v2, inherited, isSpace)
  {
    PassesAsPieces(ps, v1, v2, inherited, isSpace);
    SubstituteSame(ps, Either(Bound(v1, inherited), Bound(v2, inherited)), Bound(v1 + v2, inherited));
  }

  lemma {:induction false} LongPiece(ps: seq<Piece>, p: Piece)
    requires p in ps
    ensures |Render(ps)| >= |TextOf(p)|
  {
    if p != ps[0] {
      LongPiece(ps[1..], p);
    }
  }

  lemma {:induction false} Substituted(ps: seq<Piece>, p: Piece, lookup: Lookup)
    requires p in ps
    ensures Substitute(p, lookup) in SubstituteAll(ps, lookup)
  {
    if p != ps[0] {
      Substituted(ps[1..], p, lookup);
    }
  }

  lemma LongValueShows(ps: seq<Piece>, p: Piece, twice: Lookup, once: Lookup)
    requires p in ps && p.Token? && once(p.key).Some?
    requires |once(p.key).value| > |Render(SubstituteAll(ps, twice))|
    ensures Render(SubstituteAll(ps, twice)) != Render(SubstituteAll(ps, once))
  {
    Substituted(ps, p, once);
    LongPiece(SubstituteAll(ps, once), Substitute(p, once));
  }

  /** A long value for an inherited name of the second object shows in one pass, and not in two. */
  lemma InheritedHidesSecond(ps: seq<Piece>, names1: set<string>, names2: set<string>, p: Piece,
                             inherited: map<string, string>, isSpace: char -> bool) returns (v1: Vars, v2: Vars)
    requires LawfulSpace(isSpace) && (forall q :: q in ps ==> WellFormed(q, isSpace)) && names1 !! names2
    requires forall k :: k in inherited ==> Quiet(inherited[k])
    requires p in ps && p.Token? && p.key in names2 && p.key in inherited
    ensures v1.Keys == names1 && v2.Keys == names2 && NeverNull(v1) && NeverNull(v2) && QuietVars(v1)
    ensures !PassesAgree(ps, v1, v2, inherited, isSpace)
  {
    v1 := map k | k in names1 :: Some("");
    var short: Vars := map k | k in names2 :: Some("");
    var twice := Either(Bound(v1, inherited), Bound(short, inherited));
    var long := seq(|Render(SubstituteAll(ps, twice))| + 1, _ => 'x');
    v2 := short[p.key := Some(long)];
    SubstituteSame(ps, twice, Either(Bound(v1, inherited), Bound(v2, inherited)));
    LongValueShows(ps, p, twice, Bound(v1 + v2, inherited));
    PassesAsPieces(ps, v1, v2, inherited, isSpace);
  }

  /** For all values, none of them null, of two disjoint sets of variables: two passes are one with their union exactly
      when no token of the template names both a variable of the second set and an inherited property. */
  lemma TwoObjectsAreOneIff(ps: seq<Piece>, names1: set<string>, names2: set<string>, inherited: map<string, string>,
                            isSpace: char -> bool)
    requires LawfulSpace(isSpace) && (forall p :: p in ps ==> WellFormed(p, isSpace)) && names1 !! names2
    requires forall k :: k in inherited ==> Quiet(inherited[k])
    ensures (forall v1: Vars, v2: Vars ::
               v1.Keys == names1 && v2.Keys == names2 && NeverNull(v1) && NeverNull(v2) && QuietVars(v1) ==>
                 PassesAgree(ps, v1, v2, inherited, isSpace)) <==>
            NoneInherited(ps, names2, inherited)
  {
    if NoneInherited(ps, names2, inherited) {
      forall v1: Vars, v2: Vars | v1.Keys == names1 && v2.Keys == names2 && NeverNull(v1) && QuietVars(v1)
        ensures PassesAgree(ps, v1, v2, inherited, isSpace)
      {
        AgreeWhenNoneInherited(ps, v1, v2, inherited, isSpace);
      }
    } else {
      var p :| p in ps && p.Token? && p.key in names2 && p.key in inherited;
      var v1, v2 := InheritedHidesSecond(ps, names1, names2, p, inherited, isSpace);
    }
  }

  function CountTokens(ps: seq<Piece>): nat {
    if ps == [] then 0 else (if ps[0].Token? then 1 else 0) + CountTokens(ps[1..])
  }

  function CountMatches(chunks: seq<Chunk>): nat {
    if chunks == [] then 0 else (if chunks[0].Match? then 1 else 0) + CountMatches(chunks[1..])
  }

  lemma {:induction false} NoMatchInText(text: string, rest: string, isSpace: char -> bool)
    requires Quiet(text)
    ensures CountMatches(Scan(text + rest, isSpace)) == CountMatches(Scan(rest, isSpace))
  {
    if text == [] {
      assert text + rest == rest;
    } else {
      assert forall i :: 0 <= i < |text[1..]| ==> text[1..][i] == text[i + 1];
      NoMatchInText(text[1..], rest, isSpace);
      FirstApart(text, rest);
      assert text[0] == '{' ==> (text[1..] + rest)[0] == text[0 + 1];
      assert (text + rest)[1..] == text[1..] + rest;
      assert Scan(text + rest, isSpace) == [Char(text[0])] + Scan(text[1..] + rest, isSpace);
    }
  }

  /** The scan of a written template matches its tokens and nothing else. */
  lemma {:induction false} TokensMatched(ps: seq<Piece>, isSpace: char -> bool)
    requires LawfulSpace(isSpace) && forall p :: p in ps ==> WellFormed(p, isSpace)
    ensures CountMatches(Scan(Render(ps), isSpace)) == CountTokens(ps)
  {
    if ps != [] {
      var p, rest := ps[0], Render(ps[1..]);
      assert WellFormed(p, isSpace);
      TokensMatched(ps[1..], isSpace);
      if p.Text? {
        NoMatchInText(p.text, rest, isSpace);
      } else {
        TokenFound(p, rest, isSpace);
        var text := TextOf(p);
        assert (text + rest)[..|text|] == text && (text + rest)[|text|..] == rest;
        assert Scan(text + rest, isSpace) == [Match(text, p.key)] + Scan(rest, isSpace);
      }
    }
  }

  lemma {:induction false} NotMoreTokens(ps: seq<Piece>, more: Lookup, fewer: Lookup)
    requires forall k :: fewer(k).Some? ==> more(k).Some?
    ensures CountTokens(SubstituteAll(ps, more)) <= CountTokens(SubstituteAll(ps, fewer))
  {
    if ps != [] {
      NotMoreTokens(ps[1..], more, fewer);
      assert SubstituteAll(ps, more)[1..] == SubstituteAll(ps[1..], more);
      assert SubstituteAll(ps, fewer)[1..] == SubstituteAll(ps[1..], fewer);
    }
  }

  lemma {:induction false} FewerTokens(ps: seq<Piece>, p: Piece, more: Lookup, fewer: Lookup)
    requires forall k :: fewer(k).Some? ==> more(k).Some?
    requires p in ps && p.Token? && more(p.key).Some? && fewer(p.key).None?
    ensures CountTokens(SubstituteAll(ps, more)) < CountTokens(SubstituteAll(ps, fewer))
  {
    NotMoreTokens(ps[1..], more, fewer);
    if p != ps[0] {
      FewerTokens(ps[1..], p, more, fewer);
    }
    assert SubstituteAll(ps, more)[1..] == SubstituteAll(ps[1..], more);
    assert SubstituteAll(ps, fewer)[1..] == SubstituteAll(ps[1..], fewer);
  }

  lemma {:induction false} SubstituteWellFormed(ps: seq<Piece>, lookup: Lookup, isSpace: char -> bool)
    requires (forall p :: p in ps ==> WellFormed(p, isSpace)) && QuietValues(ps, lookup)
    ensures forall p :: p in SubstituteAll(ps, lookup) ==> WellFormed(p, isSpace)
  {
    SubstituteTwice(ps, lookup, lookup, isSpace);
  }

  lemma FewerTokensOtherText(ps: seq<Piece>, p: Piece, more: Lookup, fewer: Lookup, isSpace: char -> bool)
    requires LawfulSpace(isSpace) && (forall q :: q in ps ==> WellFormed(q, isSpace))
    requires QuietValues(ps, more) && QuietValues(ps, fewer)
    requires forall k :: fewer(k).Some? ==> more(k).Some?
    requires p in ps && p.Token? && more(p.key).Some? && fewer(p.key).None?
    ensures Render(SubstituteAll(ps, more)) != Render(SubstituteAll(ps, fewer))
  {
    FewerTokens(ps, p, more, fewer);
    SubstituteWellFormed(ps, more, isSpace);
    SubstituteWellFormed(ps, fewer, isSpace);
    TokensMatched(SubstituteAll(ps, more), isSpace);
    TokensMatched(SubstituteAll(ps, fewer), isSpace);
  }

  /** With null for every variable one pass leaves a token that two passes replace by what its name inherits. */
  lemma NullShowsInherited(ps: seq<Piece>, names1: set<string>, names2: set<string>, p: Piece,
                           inherited: map<string, string>, isSpace: char -> bool) returns (v1: Vars, v2: Vars)
    requires LawfulSpace(isSpace) && (forall q :: q in ps ==> WellFormed(q, isSpace)) && names1 !! names2
    requires forall k :: k in inherited ==> Quiet(inherited[k])
    requires p in ps && p.Token? && p.key in names1 + names2 && p.key in inherited
    ensures v1.Keys == names1 && v2.Keys == names2 && QuietVars(v1)
    ensures !PassesAgree(ps, v1, v2, inherited, isSpace)
  {
    v1 := map k | k in names1 :: None;
    v2 := map k | k in names2 :: None;
    var more, fewer := Either(Bound(v1, inherited), Bound(v2, inherited)), Bound(v1 + v2, inherited);
    FewerTokensOtherText(ps, p, more, fewer, isSpace);
    PassesAsPieces(ps, v1, v2, inherited, isSpace);
  }

  /** And for all values, null ones included, exactly when no token names both a variable of either set and an inherited
      property. */
  lemma TwoNullableObjectsAreOneIff(ps: seq<Piece>, names1: set<string>, names2: set<string>,
                                    inherited: map<string, string>, isSpace: char -> bool)
    requires LawfulSpace(isSpace) && (forall p :: p in ps ==> WellFormed(p, isSpace)) && names1 !! names2
    requires forall k :: k in inherited ==> Quiet(inherited[k])
    ensures (forall v1: Vars, v2: Vars ::
               v1.Keys == names1 && v2.Keys == names2 && QuietVars(v1) ==>
                 PassesAgree(ps, v1, v2, inherited, isSpace)) <==>
            NoneInherited(ps, names1 + names2, inherited)
  {
    if NoneInherited(ps, names1 + names2, inherited) {
      forall v1: Vars, v2: Vars | v1.Keys == names1 && v2.Keys == names2 && QuietVars(v1)
        ensures PassesAgree(ps, v1, v2, inherited, isSpace)
      {
        AgreeWhenNoneInherited(ps, v1, v2, inherited, isSpace);
      }
    } else {
      var p :| p in ps && p.Token? && p.key in names1 + names2 && p.key in inherited;
      var v1, v2 := NullShowsInherited(ps, names1, names2, p, inherited, isSpace);
    }
  }

  // ------------------------------------------------------------------ at an input

  lemma OneToken(key: string, lookup: Lookup, isSpace: char -> bool)
    requires LawfulSpace(isSpace) && key != "" && forall c :: c in key ==> IsWord(c)
    ensures var text := TextOf(Token("", key, ""));
            Interpolate(text, lookup, isSpace) == if lookup(key).Some? then lookup(key).value else text
  {
    var t := Token("", key, "");
    TokenPasses(t, "", lookup, isSpace);
    assert TextOf(t) + "" == TextOf(t);
    assert Interpolate("", lookup, isSpace) == "";
  }

  /** {{toString}} is replaced although nothing is bound to it. */
  lemma InheritedNameIsReplaced(inherited: map<string, string>, isSpace: char -> bool)
    requires LawfulSpace(isSpace)
    requires "toString" in inherited && inherited["toString"] == "function toString() { [native code] }"
    ensures Interpolate(TextOf(Token("", "toString", "")), Bound(map[], inherited), isSpace) == inherited["toString"]
  {
    OneToken("toString", Bound(map[], inherited), isSpace);
  }

  /** A value that looks like a token comes out of one pass as it is, even when the name in it is bound as well; a
      second pass replaces it. */
  lemma RescannedOnlyByASecondPass(key: string, other: string, value: string, isSpace: char -> bool)
    requires LawfulSpace(isSpace) && key != "" && other != "" && forall c :: c in key + other ==> IsWord(c)
    ensures var text, first := TextOf(Token("", key, "")), Single(key, TextOf(Token("", other, "")));
            var second := Single(other, value);
            && Interpolate(text, Either(first, second), isSpace) == TextOf(Token("", other, ""))
            && Interpolate(Interpolate(text, first, isSpace), second, isSpace) == value
  {
    var first, second := Single(key, TextOf(Token("", other, ""))), Single(other, value);
    assert (forall c :: c in key ==> c in key + other) && (forall c :: c in other ==> c in key + other);
    OneToken(key, first, isSpace);
    OneToken(other, second, isSpace);
    OneToken(key, Either(first, second), isSpace);
  }

  /** One name bound. */
  function Single(key: string, value: string): Lookup {
    k => if k == key then Some(value) else None
  }

  /** With toString bound by the second object alone, two passes give what every object inherits, one pass the value. */
  lemma SecondObjectTooLate(inherited: map<string, string>, isSpace: char -> bool)
    requires LawfulSpace(isSpace) && "toString" in inherited && Quiet(inherited["toString"])
    ensures var text, v2 := TextOf(Token("", "toString", "")), map["toString" := Some("Asha")];
            && Interpolate(Interpolate(text, Bound(map[], inherited), isSpace), Bound(v2, inherited), isSpace) ==
               inherited["toString"]
            && Interpolate(text, Bound(map[] + v2, inherited), isSpace) == "Asha"
  {
    var v2 := map["toString" := Some("Asha")];
    OneToken("toString", Bound(map[], inherited), isSpace);
    OneToken("toString", Bound(map[] + v2, inherited), isSpace);
    TextPasses(inherited["toString"], "", Bound(v2, inherited), isSpace);
    assert inherited["toString"] + "" == inherited["toString"];
    assert Interpolate("", Bound(v2, inherited), isSpace) == "";
  }
}
