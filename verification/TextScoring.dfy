/** The importance evaluator: regular-expression searches over a text, capped and added.
    Text is ASCII; `\w` is a letter, a digit or an underscore. */
module TextScoring {
  import opened Regex
  import opened Rounding
  import opened Strings
  import opened Wrappers

  // --- Regular expressions -------------------------------------------------------------

  datatype Shape = Capitalized | Number

  /** `[A-Z][a-z]+` or `\d+`, matching all of `s`. */
  predicate Fits(shape: Shape, s: string) {
    match shape
    case Capitalized => |s| >= 2 && IsUpper(s[0]) && forall k :: 1 <= k < |s| ==> IsLower(s[k])
    case Number => |s| >= 1 && forall k :: 0 <= k < |s| ==> IsDigit(s[k])
  }

  /** The pattern `\b...\b` can match exactly t[i..j]. */
  predicate MatchesAt(shape: Shape, t: string, i: nat, j: nat) {
    i < j <= |t| && Boundary(t, i) && Fits(shape, t[i..j]) && Boundary(t, j)
  }

  /** Greedy matching from `i`: the longest candidate end first, backtracking to shorter ones. */
  function GreedyEnd(shape: Shape, t: string, i: nat, j: nat): (end: Option<nat>)
    ensures end.Some? ==> i < end.value <= j && MatchesAt(shape, t, i, end.value)
    ensures end.None? ==> forall k: nat :: k <= j ==> !MatchesAt(shape, t, i, k)
    decreases j
  {
    if MatchesAt(shape, t, i, j) then Some(j)
    else if j == 0 then None
    else GreedyEnd(shape, t, i, j - 1)
  }

  /** `re.findall`: leftmost matches from `i` on, none overlapping another. */
  function FindAll(shape: Shape, t: string, i: nat): seq<string>
    decreases |t| - i
  {
    if i >= |t| then []
    else
      match GreedyEnd(shape, t, i, |t|)
      case Some(end) => [t[i..end]] + FindAll(shape, t, end)
      case None => FindAll(shape, t, i + 1)
  }

  /** `re.search(rf"\b{kw}\b", text, re.IGNORECASE)` succeeds. */
  predicate KeywordFound(t: string, kw: string) {
    exists i :: 0 <= i <= |t| - |kw| && KeywordAt(t, kw, i)
  }

  predicate KeywordAt(t: string, kw: string, i: int)
    requires 0 <= i <= |t| - |kw|
  {
    Boundary(t, i) && Lower(t[i..i + |kw|]) == kw && Boundary(t, i + |kw|)
  }

  // --- Words ---------------------------------------------------------------------------

  /** Where the run of word characters that covers `i` ends. */
  function RunEnd(t: string, i: nat): (e: nat)
    requires i <= |t|
    ensures i <= e <= |t| && !WordAt(t, e)
    ensures forall k :: i <= k < e ==> IsWord(t[k])
    decreases |t| - i
  {
    if i < |t| && IsWord(t[i]) then RunEnd(t, i + 1) else i
  }

  /** The maximal runs of word characters in t[i..], in order. */
  function WordsFrom(t: string, i: nat): seq<string>
    requires i <= |t|
    decreases |t| - i
  {
    if i == |t| then []
    else if !IsWord(t[i]) then WordsFrom(t, i + 1)
    else [t[i..RunEnd(t, i)]] + WordsFrom(t, RunEnd(t, i))
  }

  function Words(t: string): seq<string> {
    WordsFrom(t, 0)
  }

  function Fitting(shape: Shape, words: seq<string>): seq<string> {
    if words == [] then []
    else (if Fits(shape, words[0]) then [words[0]] else []) + Fitting(shape, words[1..])
  }

  /** A match can only be a whole run, whatever end the matcher prefers. */
  lemma MatchIsRun(shape: Shape, t: string, i: nat, j: nat)
    requires i < |t|
    ensures MatchesAt(shape, t, i, j) <==>
            !WordAt(t, i - 1) && WordAt(t, i) && j == RunEnd(t, i) && Fits(shape, t[i..j])
  {
    var e := RunEnd(t, i);
    if MatchesAt(shape, t, i, j) {
      assert forall k :: 0 <= k < j - i ==> t[i..j][k] == t[i + k];
      assert forall k :: i <= k < j ==> IsWord(t[k]) by {
        forall k | i <= k < j ensures IsWord(t[k]) { assert IsWord(t[i..j][k - i]); }
      }
      assert WordAt(t, j - 1);
    }
  }

  lemma {:induction false} FindAllFromRun(shape: Shape, t: string, i: nat)
    requires i <= |t|
    ensures FindAll(shape, t, i) ==
            Fitting(shape, WordsFrom(t, if WordAt(t, i - 1) then RunEnd(t, i) else i))
    decreases |t| - i
  {
    if i < |t| {
      var e := RunEnd(t, i);
      match GreedyEnd(shape, t, i, |t|)
      case Some(end) =>
        MatchIsRun(shape, t, i, end);
        FindAllFromRun(shape, t, end);
        assert RunEnd(t, end) == end;
        assert WordsFrom(t, i) == [t[i..e]] + WordsFrom(t, e);
      case None =>
        FindAllFromRun(shape, t, i + 1);
        if WordAt(t, i) {
          MatchIsRun(shape, t, i, e);
          assert RunEnd(t, i + 1) == e;
          if !WordAt(t, i - 1) {
            assert WordsFrom(t, i) == [t[i..e]] + WordsFrom(t, e);
          }
        }
    }
  }

  /** `findall` over the text is a filter over its words. */
  lemma FindAllIsWordFilter(shape: Shape, t: string)
    ensures FindAll(shape, t, 0) == Fitting(shape, Words(t))
  {
    FindAllFromRun(shape, t, 0);
  }

  predicate IsKeyword(kw: string) {
    kw != [] && forall k :: 0 <= k < |kw| ==> IsLower(kw[k])
  }

  lemma KeywordIsRun(t: string, kw: string, i: nat)
    requires IsKeyword(kw) && i + |kw| <= |t|
    ensures KeywordAt(t, kw, i) <==>
            !WordAt(t, i - 1) && WordAt(t, i) && Lower(t[i..RunEnd(t, i)]) == kw
  {
    var e := RunEnd(t, i);
    if KeywordAt(t, kw, i) {
      forall k | i <= k < i + |kw| ensures IsWord(t[k]) {
        assert Lower(t[i..i + |kw|])[k - i] == ToLower(t[k]);
        assert IsLower(kw[k - i]);
      }
      assert WordAt(t, i + |kw| - 1);
    }
    if Lower(t[i..e]) == kw {
      assert e - i == |kw|;
    }
  }

  lemma {:induction false} WordIsRun(t: string, i: nat, w: string) returns (k: nat)
    requires i <= |t| && !WordAt(t, i - 1) && w in WordsFrom(t, i)
    ensures i <= k < |t| && !WordAt(t, k - 1) && WordAt(t, k) && t[k..RunEnd(t, k)] == w
    decreases |t| - i
  {
    if !IsWord(t[i]) {
      k := WordIsRun(t, i + 1, w);
    } else {
      var e := RunEnd(t, i);
      if w == t[i..e] {
        k := i;
      } else {
        assert WordsFrom(t, e) == WordsFrom(t, e + 1);
        k := WordIsRun(t, e + 1, w);
      }
    }
  }

  lemma {:induction false} RunIsWord(t: string, i: nat, k: nat)
    requires i <= k < |t| && !WordAt(t, i - 1) && !WordAt(t, k - 1) && WordAt(t, k)
    ensures t[k..RunEnd(t, k)] in WordsFrom(t, i)
    decreases k - i
  {
    if !IsWord(t[i]) {
      RunIsWord(t, i + 1, k);
    } else if i < k {
      var e := RunEnd(t, i);
      assert !(i <= k - 1 < e);
      assert WordsFrom(t, e) == WordsFrom(t, e + 1);
      RunIsWord(t, e + 1, k);
    }
  }

  /** The case-insensitive `\bkw\b` search asks whether the keyword is one of the words. */
  lemma KeywordSearchIsWordLookup(t: string, kw: string)
    requires IsKeyword(kw)
    ensures KeywordFound(t, kw) <==> exists w :: w in Words(t) && Lower(w) == kw
  {
    if KeywordFound(t, kw) {
      var i :| 0 <= i <= |t| - |kw| && KeywordAt(t, kw, i);
      KeywordIsRun(t, kw, i);
      RunIsWord(t, 0, i);
    }
    if w :| w in Words(t) && Lower(w) == kw {
      var k := WordIsRun(t, 0, w);
      KeywordIsRun(t, kw, k);
    }
  }

  // --- The score -----------------------------------------------------------------------

  const SALIENCE_KEYWORDS: seq<string> := [
    "always", "never", "prefer", "like", "dislike", "hate", "love",
    "must", "important", "crucial", "work", "live", "email", "phone"
  ]

  function KeywordMatches(t: string, keywords: seq<string>): nat {
    if keywords == [] then 0
    else (if KeywordFound(t, keywords[0]) then 1 else 0) + KeywordMatches(t, keywords[1..])
  }

  function Min(a: nat, b: nat): nat {
    if a < b then a else b
  }

  /** The score in thousandths: 0.3 + min(len/500, 0.2) + min(0.15 * keywords, 0.5)
      + min(0.05 * entities, 0.3), at most 1, rounded to two places. */
  function Score(length: nat, keywords: nat, entities: nat): int {
    var total := 300 + Min(2 * length, 200) + Min(150 * keywords, 500) + Min(50 * entities, 300);
    10 * RoundHalfEven(Min(total, 1000) as real / 10.0)
  }

  lemma ScoreGrows(length: nat, keywords: nat, entities: nat, length': nat, keywords': nat, entities': nat)
    requires length <= length' && keywords <= keywords' && entities <= entities'
    ensures 300 <= Score(length, keywords, entities) <= Score(length', keywords', entities') <= 1000
  {
    var total := 300 + Min(2 * length, 200) + Min(150 * keywords, 500) + Min(50 * entities, 300);
    var total' := 300 + Min(2 * length', 200) + Min(150 * keywords', 500) + Min(50 * entities', 300);
    RoundKeepsOrder(Min(total, 1000) as real / 10.0, Min(total', 1000) as real / 10.0);
    RoundIsDetermined(30.0, 30);
    RoundIsDetermined(100.0, 100);
  }

  function Entities(t: string): nat {
    |FindAll(Capitalized, t, 0)| + |FindAll(Number, t, 0)|
  }

  /** Every score lies in [0.3, 1.0] and has two decimal places. */
  function Importance(t: string): (r: nat)
    ensures 300 <= r <= 1000 && r % 10 == 0
  {
    var keywords := KeywordMatches(t, SALIENCE_KEYWORDS);
    ScoreGrows(|t|, keywords, Entities(t), |t|, keywords, Entities(t));
    Score(|t|, keywords, Entities(t))
  }

  /** How many of the keywords are among the words, upper and lower case alike. */
  function WordKeywords(words: seq<string>, keywords: seq<string>): nat {
    if keywords == [] then 0
    else (if exists w :: w in words && Lower(w) == keywords[0] then 1 else 0) + WordKeywords(words, keywords[1..])
  }

  lemma {:induction false} KeywordMatchesAreWords(t: string, keywords: seq<string>)
    requires forall kw :: kw in keywords ==> IsKeyword(kw)
    ensures KeywordMatches(t, keywords) == WordKeywords(Words(t), keywords)
  {
    if keywords != [] {
      KeywordSearchIsWordLookup(t, keywords[0]);
      KeywordMatchesAreWords(t, keywords[1..]);
    }
  }

  /** The regular expressions come to counting words: the score is that of the text's length,
      of its keywords among its words, and of its words that are capitalized or numbers. */
  lemma ImportanceCountsWords(t: string)
    ensures Importance(t) == Score(|t|, WordKeywords(Words(t), SALIENCE_KEYWORDS),
                                   |Fitting(Capitalized, Words(t))| + |Fitting(Number, Words(t))|)
  {
    KeywordsAreKeywords();
    KeywordMatchesAreWords(t, SALIENCE_KEYWORDS);
    EntitiesAreWords(t);
  }

  lemma EntitiesAreWords(t: string)
    ensures Entities(t) == |Fitting(Capitalized, Words(t))| + |Fitting(Number, Words(t))|
  {
    FindAllIsWordFilter(Capitalized, t);
    FindAllIsWordFilter(Number, t);
  }

  // --- Joining two texts ---------------------------------------------------------------

  lemma {:induction false} RunEndInJoin(a: string, b: string, i: nat)
    requires i <= |a|
    ensures RunEnd(a + " " + b, i) == RunEnd(a, i)
    decreases |a| - i
  {
    if i < |a| && IsWord(a[i]) {
      RunEndInJoin(a, b, i + 1);
    }
  }

  lemma {:induction false} RunEndAfterJoin(a: string, b: string, i: nat)
    requires i <= |b|
    ensures RunEnd(a + " " + b, |a| + 1 + i) == |a| + 1 + RunEnd(b, i)
    decreases |b| - i
  {
    if i < |b| && IsWord(b[i]) {
      RunEndAfterJoin(a, b, i + 1);
    }
  }

  lemma {:induction false} WordsAfterJoin(a: string, b: string, i: nat)
    requires i <= |b|
    ensures WordsFrom(a + " " + b, |a| + 1 + i) == WordsFrom(b, i)
    decreases |b| - i
  {
    var t := a + " " + b;
    if i < |b| {
      assert t[|a| + 1 + i] == b[i];
      if IsWord(b[i]) {
        var e := RunEnd(b, i);
        RunEndAfterJoin(a, b, i);
        assert t[|a| + 1 + i..|a| + 1 + e] == b[i..e];
        WordsAfterJoin(a, b, e);
      } else {
        WordsAfterJoin(a, b, i + 1);
      }
    }
  }

  lemma {:induction false} WordsBeforeJoin(a: string, b: string, i: nat)
    requires i <= |a|
    ensures WordsFrom(a + " " + b, i) == WordsFrom(a, i) + Words(b)
    decreases |a| - i
  {
    var t := a + " " + b;
    if i == |a| {
      assert t[i] == ' ';
      assert WordsFrom(t, i) == WordsFrom(t, i + 1);
      WordsAfterJoin(a, b, 0);
    } else if IsWord(a[i]) {
      var e := RunEnd(a, i);
      RunEndInJoin(a, b, i);
      assert t[i..e] == a[i..e];
      WordsBeforeJoin(a, b, e);
    } else {
      WordsBeforeJoin(a, b, i + 1);
    }
  }

  lemma {:induction false} FittingJoin(shape: Shape, xs: seq<string>, ys: seq<string>)
    ensures Fitting(shape, xs + ys) == Fitting(shape, xs) + Fitting(shape, ys)
  {
    if xs == [] {
      assert xs + ys == ys;
    } else {
      assert (xs + ys)[1..] == xs[1..] + ys;
      FittingJoin(shape, xs[1..], ys);
    }
  }

  lemma {:induction false} MoreTextMoreKeywords(s: string, t: string, keywords: seq<string>)
    requires forall w :: w in Words(s) ==> w in Words(t)
    requires forall kw :: kw in keywords ==> IsKeyword(kw)
    ensures KeywordMatches(s, keywords) <= KeywordMatches(t, keywords)
  {
    if keywords != [] {
      KeywordSearchIsWordLookup(s, keywords[0]);
      KeywordSearchIsWordLookup(t, keywords[0]);
      MoreTextMoreKeywords(s, t, keywords[1..]);
    }
  }

  lemma KeywordsAreKeywords()
    ensures forall kw :: kw in SALIENCE_KEYWORDS ==> IsKeyword(kw)
  {
  }

  /** Writing two texts as one memory never scores below either of them. */
  lemma JoiningNeverLowersImportance(a: string, b: string)
    ensures Importance(a + " " + b) >= Importance(a)
    ensures Importance(a + " " + b) >= Importance(b)
  {
    var t := a + " " + b;
    WordsBeforeJoin(a, b, 0);
    forall shape: Shape
      ensures |FindAll(shape, t, 0)| == |FindAll(shape, a, 0)| + |FindAll(shape, b, 0)|
    {
      FindAllIsWordFilter(shape, t);
      FindAllIsWordFilter(shape, a);
      FindAllIsWordFilter(shape, b);
      FittingJoin(shape, Words(a), Words(b));
    }
    KeywordsAreKeywords();
    var ka, kb := KeywordMatches(a, SALIENCE_KEYWORDS), KeywordMatches(b, SALIENCE_KEYWORDS);
    var kt := KeywordMatches(t, SALIENCE_KEYWORDS);
    MoreTextMoreKeywords(a, t, SALIENCE_KEYWORDS);
    MoreTextMoreKeywords(b, t, SALIENCE_KEYWORDS);
    ScoreGrows(|a|, ka, Entities(a), |t|, kt, Entities(t));
    ScoreGrows(|b|, kb, Entities(b), |t|, kt, Entities(t));
  }

  // --- The score in its own terms ------------------------------------------------------------

  /** What counts as an entity: two letters or more, the first a capital and the rest not, or
      nothing but digits. */
  predicate IsName(w: string) {
    |w| >= 2 && 'A' <= w[0] <= 'Z' && forall k :: 1 <= k < |w| ==> 'a' <= w[k] <= 'z'
  }

  predicate IsNumeral(w: string) {
    |w| >= 1 && forall k :: 0 <= k < |w| ==> '0' <= w[k] <= '9'
  }

  function CountOf(words: seq<string>, p: string -> bool): nat {
    if words == [] then 0 else (if p(words[0]) then 1 else 0) + CountOf(words[1..], p)
  }

  lemma {:induction false} FittingCounts(words: seq<string>)
    ensures |Fitting(Capitalized, words)| == CountOf(words, IsName)
    ensures |Fitting(Number, words)| == CountOf(words, IsNumeral)
  {
    if words != [] { FittingCounts(words[1..]); }
  }

  /** The keywords that the words say, in whatever case. */
  function Said(words: seq<string>, keywords: seq<string>): set<string> {
    set kw, w | kw in keywords && w in words && Lower(w) == kw :: kw
  }

  predicate AllDifferent(keywords: seq<string>) {
    forall i, j :: 0 <= i < j < |keywords| ==> keywords[i] != keywords[j]
  }

  lemma {:induction false} WordKeywordsAreSaid(words: seq<string>, keywords: seq<string>)
    requires AllDifferent(keywords)
    ensures WordKeywords(words, keywords) == |Said(words, keywords)|
  {
    if keywords != [] {
      var kw, rest := keywords[0], keywords[1..];
      WordKeywordsAreSaid(words, rest);
      assert kw !in rest;
      assert forall k :: k in keywords <==> k == kw || k in rest;
      if exists w :: w in words && Lower(w) == kw {
        assert Said(words, keywords) == {kw} + Said(words, rest);
      } else {
        assert Said(words, keywords) == Said(words, rest);
      }
    }
  }

  lemma KeywordsDiffer()
    ensures AllDifferent(SALIENCE_KEYWORDS)
  {
  }

  lemma ScoreFormula(length: nat, said: nat, entities: nat)
    ensures var total := 300 + (if length < 100 then 2 * length else 200) + (if said <= 3 then 150 * said else 500)
                         + (if entities < 6 then 50 * entities else 300);
      && (total >= 1000 ==> Score(length, said, entities) == 1000)
      && (total < 1000 ==> -5 <= Score(length, said, entities) - total <= 5)
  {
    RoundIsDetermined(100.0, 100);
  }

  /** Importance is 0.3, and 0.002 for each character up to 0.2, 0.15 for each keyword said up to
      0.5, and 0.05 for each name and numeral up to 0.3, but 1 at most: to two places. */
  lemma ImportanceFormula(t: string)
    ensures var words := Words(t);
      var said, entities := |Said(words, SALIENCE_KEYWORDS)|, CountOf(words, IsName) + CountOf(words, IsNumeral);
      var total := 300 + (if |t| < 100 then 2 * |t| else 200) + (if said <= 3 then 150 * said else 500)
                   + (if entities < 6 then 50 * entities else 300);
      && (total >= 1000 ==> Importance(t) == 1000)
      && (total < 1000 ==> -5 <= Importance(t) - total <= 5)
  {
    ImportanceCountsWords(t);
    KeywordsDiffer();
    WordKeywordsAreSaid(Words(t), SALIENCE_KEYWORDS);
    FittingCounts(Words(t));
    ScoreFormula(|t|, |Said(Words(t), SALIENCE_KEYWORDS)|, CountOf(Words(t), IsName) + CountOf(Words(t), IsNumeral));
  }

  predicate IsWordChar(c: char) {
    'A' <= c <= 'Z' || 'a' <= c <= 'z' || '0' <= c <= '9' || c == '_'
  }

  /** `w` stands at `i` as a whole: word characters, with none on either side. */
  predicate StandsAsWord(t: string, i: nat, w: string) {
    && w != "" && i + |w| <= |t| && t[i..i + |w|] == w
    && (forall k :: 0 <= k < |w| ==> IsWordChar(w[k]))
    && (i > 0 ==> !IsWordChar(t[i - 1])) && (i + |w| < |t| ==> !IsWordChar(t[i + |w|]))
  }

  /** The words of a text are what stands in it as a whole. */
  lemma WordsStand(t: string, w: string)
    ensures w in Words(t) <==> exists i: nat :: StandsAsWord(t, i, w)
  {
    if w in Words(t) {
      var k := WordIsRun(t, 0, w);
      assert StandsAsWord(t, k, w);
    }
    forall i: nat | StandsAsWord(t, i, w) ensures w in Words(t) {
      assert WordAt(t, i) by { assert t[i..i + |w|][0] == t[i]; }
      RunEndIs(t, i, w);
      RunIsWord(t, 0, i);
    }
  }

  lemma RunEndIs(t: string, i: nat, w: string)
    requires StandsAsWord(t, i, w)
    ensures RunEnd(t, i) == i + |w|
  {
    var e := RunEnd(t, i);
    forall k | i <= k < i + |w| ensures IsWord(t[k]) { assert t[i..i + |w|][k - i] == w[k - i]; }
    assert i + |w| < |t| ==> !IsWord(t[i + |w|]);
  }

  /** The keywords. */
  lemma KeywordsAre(kw: string)
    ensures kw in SALIENCE_KEYWORDS <==>
      || kw == "always" || kw == "never" || kw == "prefer" || kw == "like" || kw == "dislike" || kw == "hate"
      || kw == "love" || kw == "must" || kw == "important" || kw == "crucial" || kw == "work" || kw == "live"
      || kw == "email" || kw == "phone"
  {
  }
}
