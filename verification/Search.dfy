/** Searching public modules: the LIKE filter of the SQL repository, the regular-expression filter of the Mongo
    repository, and the listing handler above both. Text is ASCII. */
module Search {
  import opened Model
  import opened Authz

  // ---------- letters ----------

  function LowerChar(c: char): char {
    if 'A' <= c <= 'Z' then (c as int + 32) as char else c
  }

  function Lower(s: string): (r: string)
    ensures |r| == |s| && forall i :: 0 <= i < |s| ==> r[i] == LowerChar(s[i])
  {
    seq(|s|, i requires 0 <= i < |s| => LowerChar(s[i]))
  }

  /** Equal up to case. */
  predicate SameLetter(a: char, b: char) {
    a == b || LowerChar(a) == b || a == LowerChar(b)
  }

  const CAPITALS: string := "ABCDEFGHIJKLMNOPQRSTUVWXYZ"
  const SMALL: string := "abcdefghijklmnopqrstuvwxyz"

  /** A capital letter, and the small letter in the same place of the alphabet. */
  ghost predicate CapitalOf(a: char, b: char) {
    exists k :: 0 <= k < |CAPITALS| && a == CAPITALS[k] && b == SMALL[k]
  }

  lemma Alphabet(k: nat)
    requires k < 26
    ensures |CAPITALS| == |SMALL| == 26
    ensures CAPITALS[k] as int == 'A' as int + k && SMALL[k] as int == 'a' as int + k
  {
  }

  lemma CapitalsInARow(a: char, b: char)
    ensures CapitalOf(a, b) <==> 'A' <= a <= 'Z' && b as int == a as int + 32
  {
    if k :| 0 <= k < |CAPITALS| && a == CAPITALS[k] && b == SMALL[k] { Alphabet(k); }
    if 'A' <= a <= 'Z' && b as int == a as int + 32 {
      Alphabet(a as int - 'A' as int);
      assert a == CAPITALS[a as int - 'A' as int];
    }
  }

  // Two characters are equal up to case exactly when they are the same, or one is the capital of the other; lowering
  // leads from a capital to its small letter, and leaves everything else as it is.
  lemma CaseExact(a: char, b: char)
    ensures SameLetter(a, b) <==> a == b || CapitalOf(a, b) || CapitalOf(b, a)
    ensures LowerChar(a) == b <==> CapitalOf(a, b) || (a == b && forall c :: !CapitalOf(a, c))
  {
    hide CapitalOf;
    CapitalsInARow(a, b);
    CapitalsInARow(b, a);
    forall c ensures CapitalOf(a, c) <==> 'A' <= a <= 'Z' && c as int == a as int + 32 { CapitalsInARow(a, c); }
    if 'A' <= a <= 'Z' { assert CapitalOf(a, (a as int + 32) as char); }
  }

  predicate StandsAt(s: string, sub: string, i: int) {
    0 <= i <= |s| - |sub| && s[i..i + |sub|] == sub
  }

  predicate Contains(s: string, sub: string) {
    exists i :: 0 <= i <= |s| && StandsAt(s, sub, i)
  }

  predicate SameTextAt(s: string, sub: string, i: int)
    requires 0 <= i <= |s| - |sub|
  {
    forall j :: 0 <= j < |sub| ==> SameLetter(s[i + j], sub[j])
  }

  /** The text occurs somewhere, whatever the case of its letters. */
  predicate ContainsText(s: string, sub: string) {
    exists i :: 0 <= i <= |s| - |sub| && SameTextAt(s, sub, i)
  }

  lemma SameTextLowered(s: string, sub: string, i: int)
    requires 0 <= i <= |s| - |sub|
    ensures SameTextAt(s, sub, i) <==> StandsAt(Lower(s), Lower(sub), i)
  {
    var l := Lower(s)[i..i + |sub|];
    assert forall j :: 0 <= j < |sub| ==> (SameLetter(s[i + j], sub[j]) <==> l[j] == Lower(sub)[j]);
    if l == Lower(sub) { assert forall j :: 0 <= j < |sub| ==> l[j] == Lower(sub)[j]; }
  }

  lemma ContainsLowered(s: string, sub: string)
    ensures ContainsText(s, sub) <==> Contains(Lower(s), Lower(sub))
  {
    hide SameTextAt, StandsAt;
    forall i | 0 <= i <= |s| - |sub| ensures SameTextAt(s, sub, i) <==> StandsAt(Lower(s), Lower(sub), i) {
      SameTextLowered(s, sub, i);
    }
    forall i | StandsAt(Lower(s), Lower(sub), i) ensures i <= |s| - |sub| { StandsWithin(Lower(s), Lower(sub), i); }
  }

  lemma StandsWithin(s: string, sub: string, i: int)
    requires StandsAt(s, sub, i)
    ensures 0 <= i <= |s| - |sub|
  {
  }

  // ---------- the regular-expression filter ----------

  const ESCAPED: string := "\\.+*?^$()[]{}|"

  /** Outside a character class these mean something other than themselves. */
  const METACHARACTERS: set<char> := {'\\', '.', '+', '*', '?', '^', '$', '(', ')', '[', '{', '|'}

  predicate Alphanumeric(c: char) {
    'a' <= c <= 'z' || 'A' <= c <= 'Z' || '0' <= c <= '9'
  }

  function Escaped(s: string): string {
    if s == "" then "" else Escaped(s[..|s| - 1]) + if s[|s| - 1] in ESCAPED then ['\\', s[|s| - 1]] else [s[|s| - 1]]
  }

  method EscapeRegex(s: string) returns (result: string)
    ensures result == Escaped(s)
    ensures ReadLiteral(result) == Some(s)
  {
    result := "";
    for i := 0 to |s|
      invariant result == Escaped(s[..i])
    {
      assert s[..i + 1][..i] == s[..i];
      if s[i] in ESCAPED {
        result := result + ['\\'];
      }
      result := result + [s[i]];
    }
    assert s[..|s|] == s;
    EscapedReadsBack(s);
  }

  /** The text a pattern stands for, if it stands for one text: a backslash makes the next character literal
      unless that is a letter or a digit, and a metacharacter on its own is not literal. */
  function ReadLiteral(pattern: string): Option<string> {
    if pattern == "" then Some("")
    else if pattern[0] == '\\' then
      if |pattern| == 1 || Alphanumeric(pattern[1]) then None else Prepend(pattern[1], ReadLiteral(pattern[2..]))
    else if pattern[0] in METACHARACTERS then None
    else Prepend(pattern[0], ReadLiteral(pattern[1..]))
  }

  function Prepend(c: char, rest: Option<string>): Option<string> {
    if rest.Some? then Some([c] + rest.value) else None
  }

  lemma {:induction false} ReadLiteralConcat(p: string, q: string)
    requires ReadLiteral(p).Some? && ReadLiteral(q).Some?
    ensures ReadLiteral(p + q) == Some(ReadLiteral(p).value + ReadLiteral(q).value)
  {
    if p == "" {
      assert p + q == q && "" + ReadLiteral(q).value == ReadLiteral(q).value;
    } else {
      var k := if p[0] == '\\' then 2 else 1;
      assert (p + q)[k..] == p[k..] + q;
      ReadLiteralConcat(p[k..], q);
      var c, rest := p[k - 1], ReadLiteral(p[k..]).value;
      assert ReadLiteral(p) == Some([c] + rest) && (p + q)[0] == p[0] && (k == 2 ==> (p + q)[1] == p[1]);
      assert ([c] + rest) + ReadLiteral(q).value == [c] + (rest + ReadLiteral(q).value);
    }
  }

  // Escaping any query at all gives a pattern that stands for exactly that query.
  lemma {:induction false} EscapedReadsBack(s: string)
    ensures ReadLiteral(Escaped(s)) == Some(s)
  {
    if s != "" {
      var c := s[|s| - 1];
      EscapedReadsBack(s[..|s| - 1]);
      OneEscaped(c);
      ReadLiteralConcat(Escaped(s[..|s| - 1]), if c in ESCAPED then ['\\', c] else [c]);
      assert s[..|s| - 1] + [c] == s;
    }
  }

  lemma OneEscaped(c: char)
    ensures ReadLiteral(if c in ESCAPED then ['\\', c] else [c]) == Some([c])
  {
    assert forall i :: 0 <= i < |ESCAPED| ==> !Alphanumeric(ESCAPED[i]);
    assert ESCAPED[0] == '\\' && ESCAPED[1] == '.' && ESCAPED[2] == '+' && ESCAPED[3] == '*' && ESCAPED[4] == '?';
    assert ESCAPED[5] == '^' && ESCAPED[6] == '$' && ESCAPED[7] == '(' && ESCAPED[8] == ')' && ESCAPED[9] == '[';
    assert ESCAPED[11] == '{' && ESCAPED[13] == '|';
    assert ReadLiteral("") == Some("") && [c] + "" == [c];
    if c in ESCAPED { assert ['\\', c][2..] == ""; } else { assert [c][1..] == ""; }
  }

  /** Unanchored and case-insensitive, for patterns that stand for one text. */
  predicate RegexFinds(pattern: string, text: string) {
    ReadLiteral(pattern).Some? && ContainsText(text, ReadLiteral(pattern).value)
  }

  // ---------- the LIKE filter ----------

  /** SQL's LIKE. PostgreSQL gives a backslash the role of an escape; SQLite has no escape unless asked for. */
  predicate Like(escape: bool, p: string, s: string)
    decreases |p| + |s|
  {
    if p == "" then s == ""
    else if escape && p[0] == '\\' then |p| > 1 && s != "" && s[0] == p[1] && Like(escape, p[2..], s[1..])
    else if p[0] == '%' then Like(escape, p[1..], s) || (s != "" && Like(escape, p, s[1..]))
    else s != "" && (p[0] == '_' || p[0] == s[0]) && Like(escape, p[1..], s[1..])
  }

  predicate LikeFinds(escape: bool, query: string, text: string) {
    Like(escape, "%" + Lower(query) + "%", Lower(text))
  }

  predicate Wild(escape: bool, c: char) {
    c == '%' || c == '_' || (escape && c == '\\')
  }

  predicate HasWild(escape: bool, query: string) {
    exists i :: 0 <= i < |query| && Wild(escape, query[i])
  }

  lemma {:induction false} PercentMatchesAll(escape: bool, s: string)
    ensures Like(escape, "%", s)
  {
    if s != "" { PercentMatchesAll(escape, s[1..]); } else { assert Like(escape, "%"[1..], s); }
  }

  lemma {:induction false} LikePrefix(escape: bool, l: string, s: string)
    requires !HasWild(escape, l)
    ensures Like(escape, l + "%", s) <==> |l| <= |s| && s[..|l|] == l
  {
    if l == "" {
      assert l + "%" == "%";
      PercentMatchesAll(escape, s);
    } else {
      assert (l + "%")[1..] == l[1..] + "%";
      assert !Wild(escape, l[0]) && forall i :: 0 <= i < |l| - 1 ==> l[1..][i] == l[i + 1];
      if s != "" {
        LikePrefix(escape, l[1..], s[1..]);
        if |l| <= |s| {
          assert s[..|l|] == [s[0]] + s[1..][..|l| - 1];
          assert l == [l[0]] + l[1..];
        }
      }
    }
  }

  lemma SameSlice(s: string, i: int, n: nat)
    requires 0 < i <= |s|
    ensures i + n <= |s| ==> s[i..i + n] == s[1..][i - 1..i - 1 + n]
  {
    if i + n <= |s| {
      var here, there := s[i..i + n], s[1..][i - 1..i - 1 + n];
      assert forall k :: 0 <= k < n ==> here[k] == s[i + k] == s[1..][i - 1 + k] == there[k];
      assert here == there;
    }
  }

  lemma ContainsStep(s: string, sub: string)
    ensures Contains(s, sub) <==> (|sub| <= |s| && s[..|sub|] == sub) || (s != "" && Contains(s[1..], sub))
  {
    assert StandsAt(s, sub, 0) <==> |sub| <= |s| && s[..|sub|] == sub;
    forall i | 0 < i <= |s| ensures StandsAt(s, sub, i) <==> StandsAt(s[1..], sub, i - 1) {
      SameSlice(s, i, |sub|);
    }
    if s != "" && Contains(s[1..], sub) {
      var i :| 0 <= i <= |s[1..]| && StandsAt(s[1..], sub, i);
      assert StandsAt(s, sub, i + 1);
    }
  }

  // Without wildcards, the pattern between two percent signs finds exactly the substring.
  lemma {:induction false} LikeSubstring(escape: bool, l: string, s: string)
    requires !HasWild(escape, l)
    ensures Like(escape, "%" + l + "%", s) <==> Contains(s, l)
    decreases |s|
  {
    hide Contains, HasWild;
    ContainsStep(s, l);
    LikePrefix(escape, l, s);
    assert ("%" + l + "%")[1..] == l + "%";
    if s != "" { LikeSubstring(escape, l, s[1..]); }
  }

  // ---------- where the two filters differ ----------

  /** A text a LIKE pattern matches: every wildcard stands for "a", every escape for what it escapes. */
  function Sample(escape: bool, p: string): string {
    if p == "" then ""
    else if escape && p[0] == '\\' then
      if |p| == 1 then "%" else [p[1]] + Sample(escape, p[2..])
    else if p[0] == '%' || p[0] == '_' then "a" + Sample(escape, p[1..])
    else [p[0]] + Sample(escape, p[1..])
  }

  lemma {:induction false} SampleMatches(escape: bool, p: string)
    ensures Like(escape, p + "%", Sample(escape, p))
  {
    var s := Sample(escape, p);
    if p == "" {
      assert p + "%" == "%";
      PercentMatchesAll(escape, s);
    } else if escape && p[0] == '\\' && |p| == 1 {
      assert (p + "%")[2..] == "" && s[1..] == "";
    } else {
      var k := if escape && p[0] == '\\' then 2 else 1;
      SampleMatches(escape, p[k..]);
      assert (p + "%")[k..] == p[k..] + "%" && s[1..] == Sample(escape, p[k..]);
      if p[0] == '%' { assert Like(escape, p + "%", s[1..]); }
    }
  }

  lemma {:induction false} SampleDiffers(escape: bool, p: string)
    ensures |Sample(escape, p)| <= |p|
    ensures HasWild(escape, p) ==> Sample(escape, p) != p
    ensures forall i :: 0 <= i < |Sample(escape, p)| ==>
      Sample(escape, p)[i] in p || Sample(escape, p)[i] == 'a' || Sample(escape, p)[i] == '%'
  {
    if p != "" && !(escape && p[0] == '\\' && |p| == 1) {
      var k := if escape && p[0] == '\\' then 2 else 1;
      SampleDiffers(escape, p[k..]);
      var s, rest := Sample(escape, p), Sample(escape, p[k..]);
      assert s == [s[0]] + rest && p[k - 1] in p && forall c :: c in p[k..] ==> c in p;
      if HasWild(escape, p) { WildTail(escape, p); }
      assert k == 1 ==> (s == p ==> rest == p[1..]) && (Wild(escape, p[0]) ==> s[0] != p[0]);
    }
  }

  lemma WildTail(escape: bool, p: string)
    requires p != "" && HasWild(escape, p)
    ensures Wild(escape, p[0]) || HasWild(escape, p[1..])
  {
    var i :| 0 <= i < |p| && Wild(escape, p[i]);
    if i > 0 { assert p[1..][i - 1] == p[i]; }
  }

  lemma LoweredWild(escape: bool, query: string)
    ensures HasWild(escape, Lower(query)) <==> HasWild(escape, query)
  {
    assert forall i :: 0 <= i < |query| ==> (Wild(escape, Lower(query)[i]) <==> Wild(escape, query[i]));
  }

  // On a query with a wildcard in it the filters disagree: LIKE finds a text the regular expression does not.
  lemma WildcardDisagrees(escape: bool, query: string) returns (text: string)
    requires HasWild(escape, query)
    ensures LikeFinds(escape, query, text) && !RegexFinds(Escaped(query), text)
    ensures |text| <= |query|
  {
    hide Sample, Like, HasWild, ReadLiteral, ContainsText, Escaped;
    var l := Lower(query);
    text := Sample(escape, l);
    LoweredWild(escape, query);
    SampleMatches(escape, l);
    SampleDiffers(escape, l);
    forall i | 0 <= i < |text| ensures LowerChar(text[i]) == text[i] {
      assert text[i] in l || text[i] == 'a' || text[i] == '%';
    }
    assert Lower(text) == text;
    PercentPrefix(escape, l + "%", text);
    assert "%" + (l + "%") == "%" + l + "%";
    EscapedReadsBack(query);
    ContainsLowered(text, query);
    ContainsWhole(text, l);
  }

  lemma ContainsWhole(s: string, sub: string)
    requires |s| <= |sub| && s != sub
    ensures !Contains(s, sub)
  {
    assert |s| == |sub| ==> s[0..|s|] == s;
  }

  lemma PercentPrefix(escape: bool, p: string, s: string)
    requires Like(escape, p, s)
    ensures Like(escape, "%" + p, s)
  {
    assert ("%" + p)[1..] == p;
  }

  // Without wildcards both filters find exactly the texts that contain the query, whatever the case.
  lemma FiltersFindSubstrings(escape: bool, query: string, text: string)
    requires !HasWild(escape, query)
    ensures LikeFinds(escape, query, text) <==> ContainsText(text, query)
    ensures RegexFinds(Escaped(query), text) <==> ContainsText(text, query)
  {
    hide HasWild, ContainsText, Contains, Like, ReadLiteral, Escaped;
    LoweredWild(escape, query);
    LikeSubstring(escape, Lower(query), Lower(text));
    ContainsLowered(text, query);
    EscapedReadsBack(query);
  }

  // The filters agree on every text exactly when the query has no wildcard of the SQL dialect.
  lemma FiltersAgreeExactly(escape: bool, query: string)
    ensures (forall text :: LikeFinds(escape, query, text) <==> RegexFinds(Escaped(query), text))
      <==> !HasWild(escape, query)
  {
    hide HasWild, LikeFinds, RegexFinds, Escaped;
    if HasWild(escape, query) {
      var text := WildcardDisagrees(escape, query);
    } else {
      forall text ensures LikeFinds(escape, query, text) <==> RegexFinds(Escaped(query), text) {
        FiltersFindSubstrings(escape, query, text);
      }
    }
  }

  // ---------- where they differ on names ----------

  predicate NameChar(c: char) {
    'a' <= c <= 'z' || '0' <= c <= '9' || c == '-'
  }

  predicate AllNameChars(s: string) {
    forall i :: 0 <= i < |s| ==> NameChar(s[i])
  }

  const MAX_NAME: int := 39

  /** The names that the registry admits. The least length is 2 for modules created by the RPC service, and 3 for
      all others. */
  predicate IsName(s: string, least: nat) {
    && 0 < |s| && least <= |s| <= MAX_NAME
    && AllNameChars(s) && s[0] != '-' && s[|s| - 1] != '-'
  }

  /** The pattern asks for a character that no name contains. A backslash that is left over at the end escapes the
      percent sign that the search puts after it. */
  predicate HasForeign(escape: bool, p: string) {
    if p == "" then false
    else if escape && p[0] == '\\' then |p| == 1 || !NameChar(p[1]) || HasForeign(escape, p[2..])
    else (p[0] != '%' && p[0] != '_' && !NameChar(p[0])) || HasForeign(escape, p[1..])
  }

  lemma {:induction false} ForeignNotPrefix(escape: bool, p: string, s: string)
    requires HasForeign(escape, p) && AllNameChars(s)
    ensures !Like(escape, p + "%", s)
    decreases |p| + |s|
  {
    var escaped := escape && p[0] == '\\';
    if escaped && |p| == 1 {
      assert (p + "%")[1] == '%';
    } else {
      var k := if escaped then 2 else 1;
      assert (p + "%")[k..] == p[k..] + "%" && (p + "%")[0] == p[0] && (escaped ==> (p + "%")[1] == p[1]);
      if HasForeign(escape, p[k..]) {
        ForeignNotPrefix(escape, p[k..], s);
        if s != "" {
          ForeignNotPrefix(escape, p[k..], s[1..]);
          ForeignNotPrefix(escape, p, s[1..]);
        }
      }
    }
  }

  lemma {:induction false} ForeignNotFound(escape: bool, p: string, s: string)
    requires HasForeign(escape, p) && AllNameChars(s)
    ensures !Like(escape, "%" + p + "%", s)
    decreases |s|
  {
    hide HasForeign;
    ForeignNotPrefix(escape, p, s);
    assert ("%" + p + "%")[1..] == p + "%";
    if s != "" { ForeignNotFound(escape, p, s[1..]); }
  }

  lemma RegexFindsNoForeign(query: string, text: string)
    requires !AllNameChars(Lower(query)) && AllNameChars(text)
    ensures !RegexFinds(Escaped(query), text)
  {
    hide ReadLiteral, Escaped;
    EscapedReadsBack(query);
    ContainsLowered(text, query);
    var i :| 0 <= i < |query| && !NameChar(Lower(query)[i]);
    assert Lower(text) == text;
    forall j | 0 <= j <= |text| ensures !StandsAt(text, Lower(query), j) {
      if j + |query| <= |text| { assert text[j..j + |query|][i] == text[j + i]; }
    }
  }

  /** What a pattern asks for in the text, one after the other: a certain character, or any one. */
  function Units(escape: bool, p: string): seq<Option<char>> {
    if p == "" then []
    else if escape && p[0] == '\\' then
      if |p| == 1 then [Some('%')] else [Some(p[1])] + Units(escape, p[2..])
    else if p[0] == '%' then Units(escape, p[1..])
    else [if p[0] == '_' then None else Some(p[0])] + Units(escape, p[1..])
  }

  predicate Fits(unit: Option<char>, c: char) {
    unit == None || unit == Some(c)
  }

  /** The units stand in the text in their order, perhaps with gaps. */
  predicate StandIn(units: seq<Option<char>>, s: string)
    decreases |s|
  {
    units == []
    || (s != "" && ((Fits(units[0], s[0]) && StandIn(units[1..], s[1..])) || StandIn(units, s[1..])))
  }

  /** The fewest characters of a name in which the units can stand: a hyphen stands neither first nor last. */
  function Needed(units: seq<Option<char>>): nat {
    if units == [] then 0
    else
      |units| + (if units[0] == Some('-') then 1 else 0) + if units[|units| - 1] == Some('-') then 1 else 0
  }

  lemma {:induction false} LikeStandsIn(escape: bool, p: string, s: string)
    requires Like(escape, p + "%", s)
    ensures StandIn(Units(escape, p), s)
    decreases |p| + |s|
  {
    if p != "" {
      var k := if escape && p[0] == '\\' then 2 else 1;
      if k == 2 && |p| == 1 {
        assert (p + "%")[1] == '%' && (p + "%")[2..] == "";
      } else {
        assert (p + "%")[k..] == p[k..] + "%" && (p + "%")[0] == p[0] && (k == 2 ==> (p + "%")[1] == p[1]);
        if k == 1 && p[0] == '%' {
          if Like(escape, p[1..] + "%", s) {
            LikeStandsIn(escape, p[1..], s);
          } else {
            LikeStandsIn(escape, p, s[1..]);
          }
        } else {
          LikeStandsIn(escape, p[k..], s[1..]);
          UnitsStep(escape, p, k);
        }
      }
    }
  }

  lemma UnitsStep(escape: bool, p: string, k: nat)
    requires p != "" && k == (if escape && p[0] == '\\' then 2 else 1) && k <= |p|
    requires !(k == 1 && p[0] == '%')
    ensures var units := Units(escape, p); units != [] && units[1..] == Units(escape, p[k..])
    ensures Units(escape, p)[0] == if k == 2 then Some(p[1]) else if p[0] == '_' then None else Some(p[0])
  {
  }

  lemma {:induction false} PatternStandsIn(escape: bool, p: string, s: string)
    requires Like(escape, "%" + p + "%", s)
    ensures StandIn(Units(escape, p), s)
    decreases |s|
  {
    hide Units;
    assert ("%" + p + "%")[1..] == p + "%";
    if Like(escape, p + "%", s) {
      LikeStandsIn(escape, p, s);
    } else {
      PatternStandsIn(escape, p, s[1..]);
    }
  }

  lemma {:induction false} StandInFits(units: seq<Option<char>>, s: string)
    requires StandIn(units, s)
    ensures |units| <= |s|
    decreases |s|
  {
    if units != [] {
      if StandIn(units, s[1..]) { StandInFits(units, s[1..]); } else { StandInFits(units[1..], s[1..]); }
    }
  }

  lemma {:induction false} StandInWithoutLast(units: seq<Option<char>>, s: string)
    requires StandIn(units, s) && units != [] && s != "" && !Fits(units[|units| - 1], s[|s| - 1])
    ensures StandIn(units, s[..|s| - 1])
    decreases |s|
  {
    var t := s[..|s| - 1];
    if StandIn(units, s[1..]) {
      if |s| > 1 {
        assert s[1..][..|s| - 2] == t[1..];
        StandInWithoutLast(units, s[1..]);
      }
    } else {
      if |units| == 1 {
        assert |s| > 1 ==> t[0] == s[0];
      } else {
        StandInFits(units[1..], s[1..]);
        assert s[1..][..|s| - 2] == t[1..];
        StandInWithoutLast(units[1..], s[1..]);
      }
    }
  }

  // A name in which the units of a pattern stand has at least as many characters as they need.
  lemma NameHasNeeded(units: seq<Option<char>>, s: string)
    requires StandIn(units, s) && s != "" && s[0] != '-' && s[|s| - 1] != '-'
    ensures Needed(units) <= |s|
  {
    if units != [] {
      var t := s;
      StandInFits(units, t);
      if units[|units| - 1] == Some('-') {
        StandInWithoutLast(units, t);
        t := t[..|t| - 1];
        StandInFits(units, t);
      }
      if units[0] == Some('-') {
        assert t[0] == s[0];
        StandInFits(units, t[1..]);
      }
    }
  }

  /** A text for the units: "a" for any character. */
  function TextOf(units: seq<Option<char>>): (r: string)
    ensures |r| == |units|
    ensures forall i :: 0 <= i < |units| ==> r[i] == if units[i].Some? then units[i].value else 'a'
  {
    seq(|units|, i requires 0 <= i < |units| => if units[i].Some? then units[i].value else 'a')
  }

  lemma {:induction false} TextThenMore(escape: bool, p: string, t: string)
    requires !HasForeign(escape, p)
    ensures AllNameChars(TextOf(Units(escape, p)))
    ensures Like(escape, p + "%", TextOf(Units(escape, p)) + t)
  {
    var units := Units(escape, p);
    var s := TextOf(units);
    if p == "" {
      assert p + "%" == "%" && s + t == t;
      PercentMatchesAll(escape, t);
    } else {
      var k := if escape && p[0] == '\\' then 2 else 1;
      TextThenMore(escape, p[k..], t);
      assert (p + "%")[k..] == p[k..] + "%";
      if !(k == 1 && p[0] == '%') {
        UnitsStep(escape, p, k);
        assert s[1..] == TextOf(units[1..]) && (s + t)[1..] == s[1..] + t;
      }
    }
  }

  lemma WildIsForeignToNames(escape: bool, query: string)
    requires HasWild(escape, query)
    ensures !AllNameChars(Lower(query))
  {
    LoweredWild(escape, query);
    var i :| 0 <= i < |Lower(query)| && Wild(escape, Lower(query)[i]);
    assert !NameChar(Lower(query)[i]);
  }

  function Repeat(n: nat): (r: string)
    ensures |r| == n && forall i :: 0 <= i < n ==> r[i] == 'a'
  {
    seq(n, _ => 'a')
  }

  lemma {:induction false} PercentSkips(escape: bool, p: string, front: string, s: string)
    requires Like(escape, p, s)
    ensures Like(escape, "%" + p, front + s)
    decreases |front|
  {
    assert ("%" + p)[1..] == p;
    if front == "" {
      assert front + s == s;
    } else {
      assert (front + s)[1..] == front[1..] + s;
      PercentSkips(escape, p, front[1..], s);
    }
  }

  /** The text of the units, made into a name. */
  function Padded(units: seq<Option<char>>, least: nat): string {
    var text := TextOf(units);
    var back := if text == "" || text[|text| - 1] == '-' then "a" else "";
    var front := if text != "" && text[0] == '-' then "a" else "";
    var short := front + text + back;
    Repeat(if |short| < least then least - |short| else 0) + short
  }

  lemma PaddedIsName(units: seq<Option<char>>, least: nat)
    requires AllNameChars(TextOf(units)) && Needed(units) <= MAX_NAME && least <= MAX_NAME
    ensures IsName(Padded(units, least), least)
  {
    var text := TextOf(units);
    var s := Padded(units, least);
    assert units != [] ==> text != "" && (text[0] == '-' <==> units[0] == Some('-'));
    assert units != [] ==> (text[|text| - 1] == '-' <==> units[|units| - 1] == Some('-'));
    assert forall i :: 0 <= i < |s| ==> s[i] == 'a' || s[i] in text;
  }

  // Where a query has a wildcard, asks for nothing that no name contains, and for no more than fits a name, LIKE
  // finds a name that the regular expression does not.
  lemma WildcardDisagreesOnNames(escape: bool, query: string, least: nat) returns (text: string)
    requires HasWild(escape, query) && !HasForeign(escape, Lower(query)) && least <= MAX_NAME
    requires Needed(Units(escape, Lower(query))) <= MAX_NAME
    ensures IsName(text, least) && LikeFinds(escape, query, text) && !RegexFinds(Escaped(query), text)
  {
    hide Units, TextOf, Padded, Like, HasWild, HasForeign, RegexFinds, Escaped, Needed;
    var l := Lower(query);
    TextThenMore(escape, l, "");
    PaddedMatches(escape, l, least);
    PaddedIsName(Units(escape, l), least);
    text := Padded(Units(escape, l), least);
    assert Lower(text) == text;
    WildIsForeignToNames(escape, query);
    RegexFindsNoForeign(query, text);
  }

  lemma PaddedMatches(escape: bool, p: string, least: nat)
    requires !HasForeign(escape, p)
    ensures Like(escape, "%" + p + "%", Padded(Units(escape, p), least))
  {
    hide Units, TextOf, Like, HasForeign, Padded;
    var front, back := PaddedForm(Units(escape, p), least);
    TextThenMore(escape, p, back);
    PercentSkips(escape, p + "%", front, TextOf(Units(escape, p)) + back);
    assert "%" + (p + "%") == "%" + p + "%";
  }

  lemma PaddedForm(units: seq<Option<char>>, least: nat) returns (front: string, back: string)
    ensures Padded(units, least) == front + (TextOf(units) + back)
  {
    hide TextOf, Repeat;
    var text := TextOf(units);
    back := if text == "" || text[|text| - 1] == '-' then "a" else "";
    var dash := if text != "" && text[0] == '-' then "a" else "";
    var short := dash + text + back;
    var more := Repeat(if |short| < least then least - |short| else 0);
    front := more + dash;
    Regrouped(more, dash, text, back);
  }

  lemma Regrouped(a: string, b: string, c: string, d: string)
    ensures (a + b) + (c + d) == a + (b + c + d)
  {
  }

  lemma TooLongFindsNothing(escape: bool, query: string, least: nat, text: string)
    requires Needed(Units(escape, Lower(query))) > MAX_NAME && IsName(text, least)
    ensures !LikeFinds(escape, query, text)
  {
    hide Units, Needed, StandIn;
    assert Lower(text) == text;
    if LikeFinds(escape, query, text) {
      PatternStandsIn(escape, Lower(query), text);
      NameHasNeeded(Units(escape, Lower(query)), text);
    }
  }

  // On the names that the registry admits, the filters agree exactly when the query has no wildcard of the SQL
  // dialect, or asks for a character that no name contains, or for more than fits a name; in the last two cases
  // neither finds anything where the query has a wildcard.
  lemma FiltersAgreeOnNamesExactly(escape: bool, query: string, least: nat)
    requires least <= MAX_NAME
    ensures
      (forall text :: IsName(text, least) ==> (LikeFinds(escape, query, text) <==> RegexFinds(Escaped(query), text)))
      <==>
      || !HasWild(escape, query)
      || HasForeign(escape, Lower(query))
      || Needed(Units(escape, Lower(query))) > MAX_NAME
  {
    hide HasWild, HasForeign, RegexFinds, Escaped, Like, Units, Needed;
    if !HasWild(escape, query) {
      forall text ensures LikeFinds(escape, query, text) <==> RegexFinds(Escaped(query), text) {
        FiltersFindSubstrings(escape, query, text);
      }
    } else if HasForeign(escape, Lower(query)) || Needed(Units(escape, Lower(query))) > MAX_NAME {
      WildIsForeignToNames(escape, query);
      forall text | IsName(text, least)
        ensures !LikeFinds(escape, query, text) && !RegexFinds(Escaped(query), text)
      {
        RegexFindsNoForeign(query, text);
        if HasForeign(escape, Lower(query)) {
          assert Lower(text) == text;
          ForeignNotFound(escape, Lower(query), text);
        } else {
          TooLongFindsNothing(escape, query, least, text);
        }
      }
    } else {
      var text := WildcardDisagreesOnNames(escape, query, least);
    }
  }

  // ---------- the listings ----------

  datatype Backend = Sqlite | Postgres | Mongo

  /** A module with its creation time, by which listings are ordered. */
  datatype Row = Row(m: Module, createdAt: Time)

  /** The repository's filter on one row. An empty query filters nothing but visibility. */
  predicate Selects(b: Backend, query: string, row: Row) {
    && row.m.visibility == Public
    && (query == ""
        || (if b == Mongo then RegexFinds(Escaped(query), row.m.name) || RegexFinds(Escaped(query), row.m.ownerName)
            else LikeFinds(b == Postgres, query, row.m.name) || LikeFinds(b == Postgres, query, row.m.ownerName)))
  }

  /** What a search is for. */
  predicate Wanted(query: string, row: Row) {
    row.m.visibility == Public && (ContainsText(row.m.name, query) || ContainsText(row.m.ownerName, query))
  }

  function Filter(keep: Row -> bool, rows: seq<Row>): (r: seq<Row>)
    ensures forall row :: row in r <==> row in rows && keep(row)
  {
    if rows == [] then []
    else
      var rest := Filter(keep, rows[..|rows| - 1]);
      var last := rows[|rows| - 1];
      assert rows == rows[..|rows| - 1] + [last];
      if keep(last) then rest + [last] else rest
  }

  ghost predicate NewestFirst(rows: seq<Row>) {
    forall i, j :: 0 <= i < j < |rows| ==> rows[i].createdAt >= rows[j].createdAt
  }

  function InsertByTime(rows: seq<Row>, row: Row): seq<Row> {
    if rows == [] || rows[0].createdAt < row.createdAt then [row] + rows
    else [rows[0]] + InsertByTime(rows[1..], row)
  }

  /** Rows of one creation time stay in the order of the table. */
  function SortByTime(rows: seq<Row>): seq<Row> {
    if rows == [] then [] else InsertByTime(SortByTime(rows[..|rows| - 1]), rows[|rows| - 1])
  }

  lemma {:induction false} InsertKeepsRows(rows: seq<Row>, row: Row)
    ensures multiset(InsertByTime(rows, row)) == multiset(rows) + multiset{row}
    ensures forall x :: x in InsertByTime(rows, row) ==> x == row || x in rows
  {
    if rows != [] && rows[0].createdAt >= row.createdAt {
      InsertKeepsRows(rows[1..], row);
      assert rows == [rows[0]] + rows[1..];
    }
  }

  lemma NewestPrepended(first: Row, rows: seq<Row>)
    requires NewestFirst(rows) && forall x :: x in rows ==> x.createdAt <= first.createdAt
    ensures NewestFirst([first] + rows)
  {
  }

  lemma NewestLeads(rows: seq<Row>)
    requires rows != [] && NewestFirst(rows)
    ensures NewestFirst(rows[1..]) && forall x :: x in rows ==> x.createdAt <= rows[0].createdAt
  {
  }

  lemma {:induction false} InsertSorts(rows: seq<Row>, row: Row)
    requires NewestFirst(rows)
    ensures NewestFirst(InsertByTime(rows, row))
  {
    hide NewestFirst;
    if rows != [] { NewestLeads(rows); }
    if rows == [] || rows[0].createdAt < row.createdAt {
      NewestPrepended(row, rows);
    } else {
      InsertSorts(rows[1..], row);
      InsertKeepsRows(rows[1..], row);
      NewestPrepended(rows[0], InsertByTime(rows[1..], row));
    }
  }

  // Sorting gives the same rows, newest first.
  lemma {:induction false} SortSorts(rows: seq<Row>)
    ensures NewestFirst(SortByTime(rows)) && multiset(SortByTime(rows)) == multiset(rows)
  {
    hide NewestFirst, InsertByTime;
    if rows == [] {
      NoneSorted();
    } else {
      var n := |rows| - 1;
      assert rows == rows[..n] + [rows[n]];
      SortSorts(rows[..n]);
      InsertSorts(SortByTime(rows[..n]), rows[n]);
      InsertKeepsRows(SortByTime(rows[..n]), rows[n]);
    }
  }

  lemma NoneSorted()
    ensures NewestFirst([])
  {
  }

  /** The rows a repository returns out of its table. */
  function ListPublic(b: Backend, table: seq<Row>, query: string, limit: nat): (r: seq<Row>) {
    var all := SortByTime(Filter(row => Selects(b, query, row), table));
    if |all| <= limit then all else all[..limit]
  }

  lemma {:induction false} FilterAgrees(f: Row -> bool, g: Row -> bool, rows: seq<Row>)
    requires forall row :: row in rows ==> f(row) == g(row)
    ensures Filter(f, rows) == Filter(g, rows)
  {
    if rows != [] { FilterAgrees(f, g, rows[..|rows| - 1]); }
  }

  lemma {:induction false} FilterAll(f: Row -> bool, rows: seq<Row>)
    requires forall row :: row in rows ==> f(row)
    ensures Filter(f, rows) == rows
  {
    if rows != [] { FilterAll(f, rows[..|rows| - 1]); }
  }

  lemma SelectsWanted(b: Backend, query: string, row: Row)
    requires !HasWild(b == Postgres, query)
    ensures Selects(b, query, row) <==> Wanted(query, row)
  {
    hide HasWild, LikeFinds, RegexFinds, Escaped, SameTextAt;
    if query == "" {
      assert SameTextAt(row.m.name, query, 0) by { EmptyTextAt(row.m.name); }
    } else {
      FiltersFindSubstrings(b == Postgres, query, row.m.name);
      FiltersFindSubstrings(b == Postgres, query, row.m.ownerName);
    }
  }

  lemma EmptyTextAt(s: string)
    ensures SameTextAt(s, "", 0)
  {
  }

  // For a query without wildcards every repository returns, newest first, as many as the limit allows of the public
  // modules whose name or owner contains the query, and leaves out none that is newer than one it returns.
  lemma ListingExact(b: Backend, table: seq<Row>, query: string, limit: nat) returns (rest: seq<Row>)
    requires !HasWild(b == Postgres, query)
    ensures var r := ListPublic(b, table, query, limit);
      && NewestFirst(r) && |r| <= limit && (|r| < limit ==> rest == [])
      && multiset(r) + multiset(rest) == multiset(Filter(row => Wanted(query, row), table))
      && forall x, y :: x in r && y in rest ==> x.createdAt >= y.createdAt
  {
    hide HasWild, Selects, Wanted, SortByTime, NewestFirst;
    forall row ensures Selects(b, query, row) == Wanted(query, row) { SelectsWanted(b, query, row); }
    FilterAgrees(row => Selects(b, query, row), row => Wanted(query, row), table);
    var all := SortByTime(Filter(row => Selects(b, query, row), table));
    SortSorts(Filter(row => Selects(b, query, row), table));
    rest := CutNewest(all, limit);
  }

  lemma CutNewest(all: seq<Row>, limit: nat) returns (rest: seq<Row>)
    requires NewestFirst(all)
    ensures var r := if |all| <= limit then all else all[..limit];
      && NewestFirst(r) && |r| <= limit && (|r| < limit ==> rest == [])
      && multiset(r) + multiset(rest) == multiset(all)
      && forall x, y :: x in r && y in rest ==> x.createdAt >= y.createdAt
  {
    var n := if |all| <= limit then |all| else limit;
    rest := all[n..];
    assert all == all[..n] + rest;
  }

  // So any two repositories with the same table list the same.
  lemma ListingsAgree(b: Backend, b': Backend, table: seq<Row>, query: string, limit: nat)
    requires !HasWild(b == Postgres || b' == Postgres, query)
    ensures ListPublic(b, table, query, limit) == ListPublic(b', table, query, limit)
  {
    hide HasWild, Selects, Wanted;
    FewerWild(b, b', query);
    forall row ensures Selects(b, query, row) == Selects(b', query, row) {
      SelectsWanted(b, query, row);
      SelectsWanted(b', query, row);
    }
    FilterAgrees(row => Selects(b, query, row), row => Selects(b', query, row), table);
  }

  lemma FewerWild(b: Backend, b': Backend, query: string)
    requires !HasWild(b == Postgres || b' == Postgres, query)
    ensures !HasWild(b == Postgres, query) && !HasWild(b' == Postgres, query)
  {
  }

  lemma AllPublic(b: Backend, table: seq<Row>, query: string, limit: nat)
    ensures forall row :: row in ListPublic(b, table, query, limit) ==> row.m.visibility == Public
  {
    hide LikeFinds, RegexFinds, SortByTime, InsertByTime;
    var keep := (row: Row) => Selects(b, query, row);
    var some := Filter(keep, table);
    FilterAgrees(keep, row => Selects(b, query, row), table);
    SortSorts(some);
    forall row | row in SortByTime(some) ensures row.m.visibility == Public {
      assert row in multiset(SortByTime(some)) && row in multiset(some);
      assert row in some && keep(row);
    }
  }

  /** The listing handler: an owner's modules if an owner is named, a search otherwise, and in either case only
      what the caller may read. */
  method ListModules(b: Backend, a: Accounts, userId: string, table: seq<Row>, owner: string, query: string)
    returns (result: seq<Row>)
    ensures owner != "" ==>
      result == Filter((row: Row) => row.m.ownerName == owner && Readable(a, userId, row.m), table)
    ensures owner == "" ==> result == ListPublic(b, table, query, 50)
  {
    var rows :=
      if owner != "" then Filter((row: Row) => row.m.ownerName == owner, table)
      else ListPublic(b, table, query, 50);
    result := [];
    for i := 0 to |rows|
      invariant result == Filter((row: Row) => CanRead(a, userId, row.m), rows[..i])
    {
      assert rows[..i + 1][..i] == rows[..i];
      if !CanRead(a, userId, rows[i].m) {
        continue;
      }
      result := result + [rows[i]];
    }
    assert rows[..|rows|] == rows;
    forall row: Row ensures CanRead(a, userId, row.m) == Readable(a, userId, row.m) {
      RightsFromTables(a, userId, row.m);
    }
    if owner != "" {
      var mine, readable := (row: Row) => row.m.ownerName == owner, (row: Row) => CanRead(a, userId, row.m);
      FilterTwice(mine, readable, table);
      FilterAgrees((row: Row) => row.m.ownerName == owner && Readable(a, userId, row.m),
        row => mine(row) && readable(row), table);
    } else {
      AllPublic(b, table, query, 50);
      FilterAll((row: Row) => CanRead(a, userId, row.m), rows);
    }
  }

  // Filtering keeps every occurrence of a row that is to be kept.
  lemma {:induction false} FilterCounts(keep: Row -> bool, rows: seq<Row>, row: Row)
    ensures multiset(Filter(keep, rows))[row] == if keep(row) then multiset(rows)[row] else 0
  {
    if rows != [] {
      FilterCounts(keep, rows[..|rows| - 1], row);
      assert rows == rows[..|rows| - 1] + [rows[|rows| - 1]];
    }
  }

  lemma {:induction false} FilterTwice(f: Row -> bool, g: Row -> bool, rows: seq<Row>)
    ensures Filter(g, Filter(f, rows)) == Filter(row => f(row) && g(row), rows)
  {
    if rows != [] {
      FilterTwice(f, g, rows[..|rows| - 1]);
      var last := rows[|rows| - 1];
      if f(last) {
        var rest := Filter(f, rows[..|rows| - 1]);
        assert (rest + [last])[..|rest|] == rest;
      }
    }
  }
}
