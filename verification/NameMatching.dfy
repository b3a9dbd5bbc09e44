/** Recognising an employer's, project's or school's name in a recruiter's message. Texts are given
    lower-cased. */
module NameMatching {

  const MIN_NAME_CHARS: int := 3
  const ORG_SUFFIXES: set<string> :=
    {"plc", "ltd", "limited", "inc", "llc", "pvt", "co", "corp", "corporation", "company"}

  predicate WordChar(c: char) {
    'a' <= c <= 'z' || '0' <= c <= '9'
  }

  predicate AllDigits(token: string) {
    |token| > 0 && forall i :: 0 <= i < |token| ==> '0' <= token[i] <= '9'
  }

  /** A non-empty run of word characters. */
  predicate IsToken(t: string) {
    |t| > 0 && forall i :: 0 <= i < |t| ==> WordChar(t[i])
  }

  predicate AreTokens(ts: seq<string>) {
    forall i :: 0 <= i < |ts| ==> IsToken(ts[i])
  }

  // ---- the normalisation, as it is done ----

  function DropNonWord(s: string): (r: string)
    ensures |r| <= |s| && (|r| > 0 ==> WordChar(r[0]))
  {
    if s == [] || WordChar(s[0]) then s else DropNonWord(s[1..])
  }

  /** Every run of other characters becomes one space. */
  function Squash(s: string): string
    decreases |s|
  {
    if s == [] then []
    else if WordChar(s[0]) then [s[0]] + Squash(s[1..])
    else [' '] + Squash(DropNonWord(s[1..]))
  }

  function UntilSpace(s: string): (n: nat)
    ensures n <= |s| && (n < |s| ==> s[n] == ' ') && forall i :: 0 <= i < n ==> s[i] != ' '
  {
    if s == [] || s[0] == ' ' then 0 else 1 + UntilSpace(s[1..])
  }

  function Split(s: string): seq<string>
    decreases |s|
  {
    if s == [] then []
    else if s[0] == ' ' then Split(s[1..])
    else [s[..UntilSpace(s)]] + Split(s[UntilSpace(s)..])
  }

  function Tokens(text: string): seq<string> {
    Split(Squash(text))
  }

  // ---- what it computes: the maximal runs of word characters ----

  function WordLength(s: string): (n: nat)
    ensures n <= |s| && (n < |s| ==> !WordChar(s[n])) && forall i :: 0 <= i < n ==> WordChar(s[i])
  {
    if s == [] || !WordChar(s[0]) then 0 else 1 + WordLength(s[1..])
  }

  function Runs(s: string): (ts: seq<string>)
    ensures AreTokens(ts)
    decreases |s|
  {
    if s == [] then []
    else if !WordChar(s[0]) then Runs(s[1..])
    else [s[..WordLength(s)]] + Runs(s[WordLength(s)..])
  }

  lemma {:induction false} SkippingKeepsRuns(s: string)
    ensures Runs(DropNonWord(s)) == Runs(s)
  {
    if s != [] && !WordChar(s[0]) {
      SkippingKeepsRuns(s[1..]);
    }
  }

  lemma {:induction false} SquashKeepsWord(s: string, n: nat)
    requires n <= |s| && forall i :: 0 <= i < n ==> WordChar(s[i])
    ensures Squash(s) == s[..n] + Squash(s[n..])
    decreases n
  {
    if n > 0 {
      SquashKeepsWord(s[1..], n - 1);
      assert s[1..][n - 1..] == s[n..];
      assert s[..n] == [s[0]] + s[1..][..n - 1];
    }
  }

  lemma {:induction false} FirstSpace(s: string, n: nat)
    requires n <= |s| && (n < |s| ==> s[n] == ' ') && forall i :: 0 <= i < n ==> s[i] != ' '
    ensures UntilSpace(s) == n
  {
  }

  lemma {:induction false} TokensAreRuns(s: string)
    ensures Tokens(s) == Runs(s)
    decreases |s|
  {
    if s == [] {
    } else if !WordChar(s[0]) {
      var rest := DropNonWord(s[1..]);
      TokensAreRuns(rest);
      SkippingKeepsRuns(s[1..]);
      assert Squash(s)[1..] == Squash(rest);
    } else {
      var n := WordLength(s);
      SquashKeepsWord(s, n);
      var squashed := Squash(s);
      assert n < |squashed| ==> squashed[n] == Squash(s[n..])[0] == ' ';
      FirstSpace(squashed, n);
      assert squashed[..n] == s[..n] && squashed[n..] == Squash(s[n..]);
      TokensAreRuns(s[n..]);
    }
  }

  /** Text that ends, or goes on with something other than a word character, is tokenised piece by piece. */
  lemma {:induction false} TokensOfPieces(s: string, t: string)
    requires t == [] || !WordChar(t[0])
    ensures Tokens(s + t) == Tokens(s) + Tokens(t)
  {
    TokensAreRuns(s);
    TokensAreRuns(t);
    TokensAreRuns(s + t);
    RunsOfPieces(s, t);
  }

  lemma {:induction false} RunsOfPieces(s: string, t: string)
    requires t == [] || !WordChar(t[0])
    ensures Runs(s + t) == Runs(s) + Runs(t)
    decreases |s|
  {
    if s == [] {
      assert s + t == t;
    } else if !WordChar(s[0]) {
      RunsOfPieces(s[1..], t);
      assert (s + t)[1..] == s[1..] + t;
    } else {
      WordInFront(s, t);
      hide WordLength;
      RunsOfPieces(s[WordLength(s)..], t);
    }
  }

  lemma WordInFront(s: string, t: string)
    requires s != [] && WordChar(s[0]) && (t == [] || !WordChar(t[0]))
    ensures var n := WordLength(s);
            Runs(s + t) == [s[..n]] + Runs(s[n..] + t) && Runs(s) == [s[..n]] + Runs(s[n..]) && 0 < n <= |s|
  {
    hide Runs, WordLength, WordChar, AreTokens;
    SameFirstWord(s, t);
    RunsOfWord(s);
    RunsOfWord(s + t);
    CutInFront(s, t, WordLength(s));
  }

  lemma CutInFront(s: string, t: string, n: nat)
    requires n <= |s|
    ensures (s + t)[..n] == s[..n] && (s + t)[n..] == s[n..] + t
  {}

  lemma SameFirstWord(s: string, t: string)
    requires t == [] || !WordChar(t[0])
    ensures WordLength(s + t) == WordLength(s)
  {
    hide WordLength, WordChar;
    var n := WordLength(s);
    forall i | 0 <= i < n ensures WordChar((s + t)[i]) {
      assert (s + t)[i] == s[i];
    }
    SameWordLength(s + t, n);
  }

  lemma RunsOfWord(s: string)
    requires s != [] && WordChar(s[0])
    ensures Runs(s) == [s[..WordLength(s)]] + Runs(s[WordLength(s)..]) && WordLength(s) > 0
  {}

  lemma SameWordLength(s: string, n: nat)
    requires n <= |s| && (n < |s| ==> !WordChar(s[n])) && forall i :: 0 <= i < n ==> WordChar(s[i])
    ensures WordLength(s) == n
  {
  }

  function Join(ts: seq<string>): string {
    if ts == [] then "" else if |ts| == 1 then ts[0] else ts[0] + " " + Join(ts[1..])
  }

  lemma OneToken(t: string)
    requires IsToken(t)
    ensures Tokens(t) == [t]
  {
    TokensAreRuns(t);
    SameWordLength(t, |t|);
    assert t[..|t|] == t;
  }

  /** Joining tokens by spaces loses nothing. */
  lemma {:induction false} JoinRoundTrip(ts: seq<string>)
    requires AreTokens(ts)
    ensures Tokens(Join(ts)) == ts
  {
    if |ts| == 1 {
      OneToken(ts[0]);
    } else if |ts| > 1 {
      JoinRoundTrip(ts[1..]);
      OneToken(ts[0]);
      var rest := Join(ts[1..]);
      TokensOfPieces(ts[0], " " + rest);
      TokensAreRuns(" " + rest);
      TokensAreRuns(rest);
      assert (" " + rest)[1..] == rest;
      assert ts[0] + " " + rest == ts[0] + (" " + rest);
    }
  }

  // ---- a padded substring is a run of whole tokens ----

  function Padded(key: string): string {
    " " + key + " "
  }

  predicate OccursAt(key: string, text: string, p: nat) {
    p + |key| <= |text| && text[p..p + |key|] == key
  }

  predicate Contains(text: string, key: string) {
    exists p: nat :: p <= |text| && OccursAt(key, text, p)
  }

  /** ks stands consecutively, as whole tokens, in ts. */
  predicate Consecutive(ks: seq<string>, ts: seq<string>) {
    exists i: nat :: i <= |ts| && ConsecutiveAt(ks, ts, i)
  }

  predicate ConsecutiveAt(ks: seq<string>, ts: seq<string>, i: nat) {
    i + |ks| <= |ts| && ts[i..i + |ks|] == ks
  }

  /** Every token with a space before it, and one after the last. */
  function Spaced(ts: seq<string>): (s: string)
    ensures |s| > 0 && s[0] == ' '
  {
    if ts == [] then " " else " " + ts[0] + Spaced(ts[1..])
  }

  lemma {:induction false} PaddedIsSpaced(ts: seq<string>)
    requires |ts| > 0
    ensures Padded(Join(ts)) == Spaced(ts)
  {
    if |ts| > 1 {
      PaddedIsSpaced(ts[1..]);
    } else {
      assert ts[1..] == [];
    }
  }

  lemma {:induction false} SpacedInFront(a: seq<string>, b: seq<string>)
    ensures exists front :: Spaced(a + b) == front + Spaced(b)
  {
    if a == [] {
      assert a + b == b && Spaced(b) == "" + Spaced(b);
    } else {
      SpacedInFront(a[1..], b);
      var front :| Spaced(a[1..] + b) == front + Spaced(b);
      assert (a + b)[1..] == a[1..] + b;
      assert Spaced(a + b) == (" " + a[0] + front) + Spaced(b);
    }
  }

  lemma {:induction false} SpacedIsPrefix(a: seq<string>, b: seq<string>)
    ensures Spaced(a) <= Spaced(a + b)
  {
    if a != [] {
      SpacedIsPrefix(a[1..], b);
      assert (a + b)[1..] == a[1..] + b;
    }
  }

  lemma SpacedBegins(ts: seq<string>)
    requires AreTokens(ts) && ts != []
    ensures var t := Spaced(ts);
            && |t| > 1 + |ts[0]| && t[1 + |ts[0]|] == ' ' && t[1 + |ts[0]|..] == Spaced(ts[1..])
            && t[1..1 + |ts[0]|] == ts[0]
            && forall i :: 1 <= i < 1 + |ts[0]| ==> t[i] == ts[0][i - 1]
  {
    var t := " " + ts[0] + Spaced(ts[1..]);
    assert t == Spaced(ts);
    hide Spaced;
    assert t[1..1 + |ts[0]|] == ts[0];
  }

  lemma {:induction false} PrefixIsTokens(ks: seq<string>, ts: seq<string>)
    requires AreTokens(ks) && AreTokens(ts) && Spaced(ks) <= Spaced(ts)
    ensures ks <= ts
  {
    if ks != [] {
      SpacedBegins(ks);
      assert ts != [] by { assert Spaced([]) == " "; }
      SpacedBegins(ts);
      hide Spaced;
      SameFirstToken(Spaced(ks), Spaced(ts), ks[0], ts[0]);
      PrefixIsTokens(ks[1..], ts[1..]);
      assert ks == [ks[0]] + ks[1..] && ts == [ts[0]] + ts[1..];
    }
  }

  lemma SameFirstToken(k: string, t: string, a: string, b: string)
    requires IsToken(a) && IsToken(b) && k <= t && |k| > 1 + |a| && |t| > 1 + |b|
    requires k[1 + |a|] == ' ' && t[1 + |b|] == ' ' && k[1..1 + |a|] == a && t[1..1 + |b|] == b
    ensures a == b && k[1 + |a|..] <= t[1 + |b|..]
  {
    assert forall i :: 0 <= i < |a| ==> k[1 + i] == a[i];
    assert forall i :: 0 <= i < |b| ==> t[1 + i] == b[i];
    assert |a| == |b|;
    assert k[1..1 + |a|] == t[1..1 + |a|];
  }

  lemma {:induction false} OccurrenceIsTokens(ks: seq<string>, ts: seq<string>, p: nat) returns (i: nat)
    requires AreTokens(ks) && AreTokens(ts) && |ks| > 0 && OccursAt(Spaced(ks), Spaced(ts), p)
    ensures ConsecutiveAt(ks, ts, i)
    decreases |ts|
  {
    SpacedBegins(ks);
    if p == 0 {
      PrefixIsTokens(ks, ts);
      i := 0;
    } else {
      assert ts != [] by { assert Spaced([]) == " "; }
      SpacedBegins(ts);
      hide Spaced;
      var q := BehindFirstToken(Spaced(ks), Spaced(ts), ts[0], p);
      var j := OccurrenceIsTokens(ks, ts[1..], q);
      i := j + 1;
      assert ts[i..i + |ks|] == ts[1..][j..j + |ks|];
    }
  }

  /** What begins with a space, but not at the front, begins behind the first token. */
  lemma BehindFirstToken(k: string, t: string, first: string, p: nat) returns (q: nat)
    requires IsToken(first) && OccursAt(k, t, p) && p > 0 && |k| > 0 && k[0] == ' '
    requires |t| > 1 + |first| && t[1..1 + |first|] == first
    ensures OccursAt(k, t[1 + |first|..], q)
  {
    assert t[p..p + |k|][0] == t[p];
    assert forall j :: 0 <= j < |first| ==> t[1 + j] == first[j];
    assert p >= 1 + |first|;
    q := p - 1 - |first|;
    assert t[1 + |first|..][q..q + |k|] == t[p..p + |k|];
  }

  lemma TokensOccur(ks: seq<string>, ts: seq<string>, i: nat)
    requires ConsecutiveAt(ks, ts, i)
    ensures exists p: nat :: p <= |Spaced(ts)| && OccursAt(Spaced(ks), Spaced(ts), p)
  {
    hide Spaced;
    var before, after := ts[..i], ts[i + |ks|..];
    assert ts == before + (ks + after);
    SpacedInFront(before, ks + after);
    SpacedIsPrefix(ks, after);
    var front :| Spaced(ts) == front + Spaced(ks + after);
    assert OccursAt(Spaced(ks), Spaced(ts), |front|);
  }

  /** The padded key is found in the padded message exactly when its tokens stand there consecutively. */
  lemma PaddedSearchIsTokenSearch(ks: seq<string>, ts: seq<string>)
    requires AreTokens(ks) && AreTokens(ts) && |ks| > 0
    ensures Contains(Padded(Join(ts)), Padded(Join(ks))) <==> Consecutive(ks, ts)
  {
    PaddedIsSpaced(ks);
    if ts == [] {
      assert |Spaced(ks)| > 2;
    } else {
      PaddedIsSpaced(ts);
      if Contains(Spaced(ts), Spaced(ks)) {
        var p: nat :| OccursAt(Spaced(ks), Spaced(ts), p);
        var i := OccurrenceIsTokens(ks, ts, p);
      }
      if Consecutive(ks, ts) {
        var i: nat :| ConsecutiveAt(ks, ts, i);
        TokensOccur(ks, ts, i);
      }
    }
  }

  // ---- the spellings of a name ----

  /** The name without trailing legal suffixes, of which at least one token is kept. */
  function Stripped(tokens: seq<string>): (r: seq<string>)
    ensures r <= tokens && (tokens != [] ==> r != [])
    decreases |tokens|
  {
    if |tokens| > 1 && tokens[|tokens| - 1] in ORG_SUFFIXES then Stripped(tokens[..|tokens| - 1]) else tokens
  }

  /** Also without a trailing number, of which at least two tokens are kept. */
  function Spellings(tokens: seq<string>): seq<seq<string>> {
    var full := Stripped(tokens);
    [full] + if |full| > 2 && AllDigits(full[|full| - 1]) then [full[..|full| - 1]] else []
  }

  /** The first n tokens are the name proper: only legal suffixes follow, and the last one is none unless it is all
      there is. */
  predicate IsProper(tokens: seq<string>, n: nat) {
    && n <= |tokens| && (tokens != [] ==> n > 0)
    && (forall i :: n <= i < |tokens| ==> tokens[i] in ORG_SUFFIXES)
    && (n > 1 ==> tokens[n - 1] !in ORG_SUFFIXES)
  }

  lemma {:induction false} StrippedIsProper(tokens: seq<string>)
    ensures IsProper(tokens, |Stripped(tokens)|)
    decreases |tokens|
  {
    var last := |tokens| - 1;
    if |tokens| > 1 && tokens[last] in ORG_SUFFIXES {
      StrippedIsProper(tokens[..last]);
    }
  }

  lemma OneProperName(tokens: seq<string>, m: nat, n: nat)
    requires IsProper(tokens, m) && IsProper(tokens, n)
    ensures m == n
  {}

  /** The spellings of a name are the name proper and, if it ends in a number behind two other tokens, that without
      the number. */
  lemma SpellingsAre(tokens: seq<string>, n: nat)
    requires IsProper(tokens, n)
    ensures forall ks :: ks in Spellings(tokens) <==>
              ks == tokens[..n] || (n > 2 && AllDigits(tokens[n - 1]) && ks == tokens[..n - 1])
  {
    StrippedIsProper(tokens);
    OneProperName(tokens, |Stripped(tokens)|, n);
    var full := Stripped(tokens);
    assert full == tokens[..n] && (n > 0 ==> full[..n - 1] == tokens[..n - 1]);
    hide Stripped, IsProper;
    assert Spellings(tokens) ==
        if n > 2 && AllDigits(tokens[n - 1]) then [tokens[..n], tokens[..n - 1]] else [tokens[..n]];
  }

  /** The spellings long enough to search for, each joined by spaces. */
  function Keys(spellings: seq<seq<string>>): seq<string> {
    if spellings == [] then []
    else (if |Join(spellings[0])| >= MIN_NAME_CHARS then [Join(spellings[0])] else []) + Keys(spellings[1..])
  }

  lemma {:induction false} KeysAreLongSpellings(spellings: seq<seq<string>>, key: string)
    ensures key in Keys(spellings) <==>
              |key| >= MIN_NAME_CHARS && exists i :: 0 <= i < |spellings| && key == Join(spellings[i])
  {
    if spellings != [] {
      KeysAreLongSpellings(spellings[1..], key);
      assert spellings == [spellings[0]] + spellings[1..];
    }
  }

  method NameKeys(name: string) returns (keys: seq<string>)
    ensures keys == Keys(Spellings(Tokens(name)))
  {
    hide Tokens, Join, Keys;
    var tokens := Tokens(name);
    while |tokens| > 1 && tokens[|tokens| - 1] in ORG_SUFFIXES
      invariant Stripped(tokens) == Stripped(Tokens(name))
    {
      tokens := tokens[..|tokens| - 1];
    }
    var spellings := [tokens];
    if |tokens| > 2 && AllDigits(tokens[|tokens| - 1]) {
      spellings := spellings + [tokens[..|tokens| - 1]];
    }
    assert tokens == Stripped(Tokens(name));
    assert spellings == Spellings(Tokens(name));
    return Keys(spellings);
  }

  /** Some spelling of the name, long enough to be one, stands in the message as whole tokens. */
  predicate Mentioned(message: string, name: string) {
    exists ks :: ks in Spellings(Tokens(name)) && |Join(ks)| >= MIN_NAME_CHARS && Consecutive(ks, Tokens(message))
  }

  lemma SpellingsAreTokens(name: string, ks: seq<string>)
    requires ks in Spellings(Tokens(name))
    ensures AreTokens(ks) && ks <= Tokens(name)
  {
    TokensAreRuns(name);
  }

  method Mentions(message: string, name: string) returns (found: bool)
    ensures found <==> Mentioned(message, name)
  {
    hide Tokens, Join, Keys, Contains, Consecutive, Spellings, Padded;
    var padded := Padded(Join(Tokens(message)));
    var keys := NameKeys(name);
    found := exists i :: 0 <= i < |keys| && Contains(padded, Padded(keys[i]));
    SearchFindsMentions(message, name, keys);
  }

  lemma SearchFindsMentions(message: string, name: string, keys: seq<string>)
    requires keys == Keys(Spellings(Tokens(name)))
    ensures (exists i :: 0 <= i < |keys| && Contains(Padded(Join(Tokens(message))), Padded(keys[i]))) <==>
          Mentioned(message, name)
  {
    hide Tokens, Join, Keys, Contains, Consecutive, Spellings, Padded;
    var padded, spellings, ts := Padded(Join(Tokens(message))), Spellings(Tokens(name)), Tokens(message);
    TokensAreRuns(message);
    if i :| 0 <= i < |keys| && Contains(padded, Padded(keys[i])) {
      KeysAreLongSpellings(spellings, keys[i]);
      var j :| 0 <= j < |spellings| && keys[i] == Join(spellings[j]);
      LongSpelling(message, name, spellings[j]);
    }
    if Mentioned(message, name) {
      var ks :| ks in spellings && |Join(ks)| >= MIN_NAME_CHARS && Consecutive(ks, ts);
      LongSpelling(message, name, ks);
      KeysAreLongSpellings(spellings, Join(ks));
    }
  }

  lemma LongSpelling(message: string, name: string, ks: seq<string>)
    requires ks in Spellings(Tokens(name)) && |Join(ks)| >= MIN_NAME_CHARS
    ensures Contains(Padded(Join(Tokens(message))), Padded(Join(ks))) <==> Consecutive(ks, Tokens(message))
  {
    TokensAreRuns(message);
    SpellingsAreTokens(name, ks);
    PaddedSearchIsTokenSearch(ks, Tokens(message));
  }

  lemma {:induction false} PrefixIsNoLonger(a: seq<string>, b: seq<string>)
    requires a <= b
    ensures |Join(a)| <= |Join(b)|
  {
    if |a| > 1 {
      PrefixIsNoLonger(a[1..], b[1..]);
    }
  }

  lemma ConsecutivePrefix(ks: seq<string>, full: seq<string>, ts: seq<string>)
    requires ks <= full && Consecutive(full, ts)
    ensures Consecutive(ks, ts)
  {
    var i: nat :| i <= |ts| && ConsecutiveAt(full, ts, i);
    assert ts[i..i + |ks|] == full[..|ks|];
    assert ConsecutiveAt(ks, ts, i);
  }

  /** A message mentions a name exactly when the name proper, three characters or more, stands in it as whole tokens,
      or all of it but a number at its end does. */
  lemma MentionedExactlyWhen(message: string, name: string, n: nat)
    requires IsProper(Tokens(name), n)
    ensures var tokens, ts := Tokens(name), Tokens(message);
            Mentioned(message, name) <==>
              || (|Join(tokens[..n])| >= MIN_NAME_CHARS && Consecutive(tokens[..n], ts))
              || (n > 2 && AllDigits(tokens[n - 1]) && |Join(tokens[..n - 1])| >= MIN_NAME_CHARS
                  && Consecutive(tokens[..n - 1], ts))
  {
    SpellingsAre(Tokens(name), n);
    hide Spellings, Tokens, Join, Consecutive, AllDigits, IsProper;
  }

  /** A message that holds the whole name as whole tokens mentions it exactly when what is left of the name
      without its legal suffixes has three characters or more. */
  lemma FullNameIsFound(message: string, name: string)
    requires Consecutive(Tokens(name), Tokens(message))
    ensures Mentioned(message, name) <==> |Join(Stripped(Tokens(name)))| >= MIN_NAME_CHARS
  {
    var full := Stripped(Tokens(name));
    assert full in Spellings(Tokens(name));
    ConsecutivePrefix(full, Tokens(name), Tokens(message));
    forall ks | ks in Spellings(Tokens(name)) ensures |Join(ks)| <= |Join(full)| {
      PrefixIsNoLonger(ks, full);
    }
  }

  /** Written out in the message between anything but word characters, the name is there as whole tokens. */
  lemma QuotedNameIsConsecutive(before: string, name: string, after: string)
    requires before == [] || !WordChar(before[|before| - 1])
    requires after == [] || !WordChar(after[0])
    ensures Consecutive(Tokens(name), Tokens(before + name + after))
  {
    TokensOfPieces(before + name, after);
    if before == [] {
      assert before + name == name;
      assert Tokens(before + name + after)[0..0 + |Tokens(name)|] == Tokens(name);
      assert ConsecutiveAt(Tokens(name), Tokens(before + name + after), 0);
    } else {
      var last := |before| - 1;
      TokensOfPieces(before[..last], before[last..] + name);
      TokensAreRuns(before[last..] + name);
      TokensAreRuns(name);
      assert (before[last..] + name)[1..] == name;
      assert before + name == before[..last] + (before[last..] + name);
      var i := |Tokens(before[..last])|;
      assert Tokens(before + name + after)[i..i + |Tokens(name)|] == Tokens(name);
      assert ConsecutiveAt(Tokens(name), Tokens(before + name + after), i);
    }
  }
}
