/** The five patterns of the triple extractor, read on a stripped sentence. A stripped
    sentence does not end in white space, so `\s+(.+)` takes all the white space and then the
    rest of the line, and no alternative but `a` is a prefix of another: there is nothing to
    backtrack over but where a match starts, how far `.+?` reaches, and which article it is. */
module TriplePatterns {
  import opened Wrappers
  import opened Strings
  import opened Regex
  import opened KnowledgeGraph

  /** What a regular expression with its group indices finds in a sentence. */
  type Pattern = string -> Option<Triple>

  // --- Pieces --------------------------------------------------------------------------

  function SpacesEnd(t: string, i: nat): (j: nat)
    requires i <= |t|
    ensures i <= j <= |t| && (j < |t| ==> !IsSpace(t[j]))
    decreases |t| - i
  {
    if i < |t| && IsSpace(t[i]) then SpacesEnd(t, i + 1) else i
  }

  /** `\s+` */
  function Gap(t: string, i: nat): (j: Option<nat>)
    ensures j.Some? ==> i < j.value <= |t| && (j.value < |t| ==> !IsSpace(t[j.value]))
  {
    if i < |t| && IsSpace(t[i]) then Some(SpacesEnd(t, i)) else None
  }

  /** `word` is what stands at `i`, case ignored. */
  predicate StandsAt(t: string, i: nat, word: string) {
    i + |word| <= |t| && Lower(t[i..i + |word|]) == word
  }

  /** A literal word, case ignored. */
  function Literal(t: string, i: nat, word: string): (j: Option<nat>)
    ensures j.Some? ==> i <= j.value <= |t|
  {
    if StandsAt(t, i, word) then Some(i + |word|) else None
  }

  /** Words with `\s+` between them. */
  function Phrase(t: string, i: nat, words: seq<string>): (j: Option<nat>)
    requires i <= |t|
    ensures j.Some? ==> i <= j.value <= |t|
    decreases |words|
  {
    if words == [] then Some(i)
    else
      match Literal(t, i, words[0])
      case None => None
      case Some(j) =>
        if |words| == 1 then Some(j)
        else
          match Gap(t, j)
          case None => None
          case Some(k) => Phrase(t, k, words[1..])
  }

  /** `(a|b|...)`: where the first alternative that matches ends. */
  function Alternative(t: string, i: nat, choices: seq<seq<string>>): (j: Option<nat>)
    requires i <= |t|
    ensures j.Some? ==> i <= j.value <= |t|
    decreases |choices|
  {
    if choices == [] then None
    else if Phrase(t, i, choices[0]).Some? then Phrase(t, i, choices[0])
    else Alternative(t, i, choices[1..])
  }

  /** Among single words, the alternative found is one of them. */
  lemma {:induction false} AlternativeIsChoice(t: string, i: nat, choices: seq<seq<string>>)
    requires i <= |t| && Alternative(t, i, choices).Some?
    requires forall k :: 0 <= k < |choices| ==> |choices[k]| == 1
    ensures [Lower(t[i..Alternative(t, i, choices).value])] in choices
    decreases |choices|
  {
    if Phrase(t, i, choices[0]).Some? {
      assert choices[0] == [choices[0][0]];
    } else {
      assert forall k :: 0 <= k < |choices[1..]| ==> choices[1..][k] == choices[k + 1];
      AlternativeIsChoice(t, i, choices[1..]);
    }
  }

  function LineEnd(t: string, i: nat): (j: nat)
    requires i <= |t|
    ensures i <= j <= |t|
    decreases |t| - i
  {
    if i < |t| && t[i] != '\n' then LineEnd(t, i + 1) else i
  }

  /** `\s+(.+)`: what the group takes. */
  function Rest(t: string, i: nat): Option<string> {
    match Gap(t, i)
    case None => None
    case Some(j) => if j < |t| then Some(t[j..LineEnd(t, j)]) else None
  }

  // --- The patterns --------------------------------------------------------------------

  const SUBJECTS: seq<seq<string>> := [["user"], ["agent"], ["client"]]
  const FEELINGS: seq<seq<string>> := [["prefers"], ["likes"], ["dislikes"], ["loves"], ["hates"]]
  const EMPLOYMENTS: seq<seq<string>> := [["works", "at"], ["works", "for"], ["employed", "by"]]
  const RESIDENCES: seq<seq<string>> := [["lives", "in"], ["resides", "in"], ["based", "in"]]
  const USES: seq<seq<string>> := [["using"], ["uses"], ["switched", "to"]]
  const ARTICLES: seq<seq<string>> := [["a"], ["an"]]

  /** The triple as the extractor normalizes it. */
  function Normalized(subj: string, pred: string, obj: string): Triple {
    Triple(Title(Strip(subj)), pred, Title(Strip(obj)))
  }

  /** `\b(user|agent|client)\s+(verbs)\s+(.+)` at position `i`; the predicate is the fixed one,
      or the verb itself. */
  function VerbAt(t: string, i: nat, verbs: seq<seq<string>>, fixed: Option<string>): Option<Triple>
    requires i <= |t|
  {
    if !Boundary(t, i) then None
    else
      match Alternative(t, i, SUBJECTS)
      case None => None
      case Some(j) =>
        match Gap(t, j)
        case None => None
        case Some(k) =>
          match Alternative(t, k, verbs)
          case None => None
          case Some(e) =>
            match Rest(t, e)
            case None => None
            case Some(obj) =>
              Some(Normalized(t[i..j], if fixed.Some? then fixed.value else Upper(t[k..e]), obj))
  }

  /** The leftmost match from `i` on. */
  function VerbFrom(t: string, i: nat, verbs: seq<seq<string>>, fixed: Option<string>): Option<Triple>
    decreases |t| - i
  {
    if i > |t| then None
    else if VerbAt(t, i, verbs, fixed).Some? then VerbAt(t, i, verbs, fixed)
    else VerbFrom(t, i + 1, verbs, fixed)
  }

  /** `\s+is\s+(?:a|an)\s+(.+)` from `e`: what the last group takes. */
  function IsAFrom(t: string, e: nat): Option<string> {
    match Gap(t, e)
    case None => None
    case Some(i) =>
      match Literal(t, i, "is")
      case None => None
      case Some(j) =>
        match Gap(t, j)
        case None => None
        case Some(k) => ArticleThenRest(t, k, ARTICLES)
  }

  /** `(?:a|an)\s+(.+)`: the first alternative after which the rest matches too. */
  function ArticleThenRest(t: string, i: nat, articles: seq<seq<string>>): Option<string>
    requires i <= |t|
  {
    if articles == [] then None
    else
      var tail := match Phrase(t, i, articles[0]) case None => None case Some(j) => Rest(t, j);
      if tail.Some? then tail else ArticleThenRest(t, i, articles[1..])
  }

  /** `\b(.+?)\s+is...` starting at `i`: the shortest first group, at least up to `e`. */
  function IsAAt(t: string, i: nat, e: nat): Option<Triple>
    requires i < e
    decreases |t| - e
  {
    if e > |t| || t[e - 1] == '\n' then None
    else if IsAFrom(t, e).Some? then Some(Normalized(t[i..e], "IS_A", IsAFrom(t, e).value))
    else IsAAt(t, i, e + 1)
  }

  function IsASearch(t: string, i: nat): Option<Triple>
    decreases |t| - i
  {
    if i > |t| then None
    else if Boundary(t, i) && IsAAt(t, i, i + 1).Some? then IsAAt(t, i, i + 1)
    else IsASearch(t, i + 1)
  }

  const PATTERNS: seq<Pattern> := [
    (s: string) => VerbFrom(s, 0, FEELINGS, None),
    (s: string) => VerbFrom(s, 0, EMPLOYMENTS, Some("WORKS_FOR")),
    (s: string) => VerbFrom(s, 0, RESIDENCES, Some("LIVES_IN")),
    (s: string) => VerbFrom(s, 0, USES, Some("USES")),
    (s: string) => IsASearch(s, 0)
  ]

  /** The verbs and the fixed predicate of pattern `p`, one of the first four. */
  function Verbs(p: nat): seq<seq<string>> {
    if p == 0 then FEELINGS else if p == 1 then EMPLOYMENTS else if p == 2 then RESIDENCES else USES
  }

  function FixedPredicate(p: nat): Option<string> {
    if p == 0 then None
    else Some(if p == 1 then "WORKS_FOR" else if p == 2 then "LIVES_IN" else "USES")
  }

  // --- What they can find --------------------------------------------------------------

  predicate HasNormalNames(t: Triple) {
    IsNormalName(t.subj) && IsNormalName(t.obj)
  }

  lemma NormalizedIsNormal(subj: string, pred: string, obj: string)
    ensures HasNormalNames(Normalized(subj, pred, obj))
  {
    StripAndTitleNormalize(subj);
    StripAndTitleNormalize(obj);
  }

  predicate IsSubjectWord(w: string) { w == "user" || w == "agent" || w == "client" }

  predicate IsFeelingWord(w: string) {
    w == "prefers" || w == "likes" || w == "dislikes" || w == "loves" || w == "hates"
  }

  /** The predicate a feeling yields: the word in upper case. */
  predicate IsFeeling(p: string) { IsFeelingWord(Lower(p)) && Upper(p) == p }

  /** Stripping and title-casing a subject found leaves the same word. */
  lemma SubjectIsKnown(t: string)
    requires IsSubjectWord(Lower(t))
    ensures IsSubjectWord(Lower(Title(Strip(t))))
  {
    var w := Lower(t);
    assert w != [] && !IsSpace(w[0]) && !IsSpace(w[|w| - 1]);
    CaseKeepsKind(t[0]);
    CaseKeepsKind(t[|t| - 1]);
    NothingToStrip(t);
    LowerOfTitle(t);
  }

  lemma FeelingIsKnown(t: string)
    requires IsFeelingWord(Lower(t))
    ensures IsFeeling(Upper(t))
  {
    UpperTwice(t);
  }

  lemma SubjectFound(t: string, i: nat)
    requires i <= |t| && Alternative(t, i, SUBJECTS).Some?
    ensures IsSubjectWord(Lower(Title(Strip(t[i..Alternative(t, i, SUBJECTS).value]))))
  {
    AlternativeIsChoice(t, i, SUBJECTS);
    SubjectIsKnown(t[i..Alternative(t, i, SUBJECTS).value]);
  }

  lemma FeelingFound(t: string, i: nat)
    requires i <= |t| && Alternative(t, i, FEELINGS).Some?
    ensures IsFeeling(Upper(t[i..Alternative(t, i, FEELINGS).value]))
  {
    AlternativeIsChoice(t, i, FEELINGS);
    FeelingIsKnown(t[i..Alternative(t, i, FEELINGS).value]);
  }

  /** The two kinds of predicate a verb pattern yields: its own, or the feeling found. */
  predicate IsVerbTriple(triple: Triple, fixed: Option<string>) {
    && IsSubjectWord(Lower(triple.subj))
    && (if fixed.Some? then triple.pred == fixed.value else IsFeeling(triple.pred))
    && HasNormalNames(triple)
  }

  lemma VerbTripleAt(t: string, i: nat, verbs: seq<seq<string>>, fixed: Option<string>)
    requires i <= |t| && VerbAt(t, i, verbs, fixed).Some?
    requires fixed.Some? || verbs == FEELINGS
    ensures IsVerbTriple(VerbAt(t, i, verbs, fixed).value, fixed)
  {
    var j := Alternative(t, i, SUBJECTS).value;
    var k := Gap(t, j).value;
    SubjectFound(t, i);
    NormalizedIsNormal(t[i..j], "", Rest(t, Alternative(t, k, verbs).value).value);
    if fixed.None? { FeelingFound(t, k); }
  }

  lemma {:induction false} VerbTriples(t: string, i: nat, verbs: seq<seq<string>>, fixed: Option<string>)
    requires VerbFrom(t, i, verbs, fixed).Some?
    requires fixed.Some? || verbs == FEELINGS
    ensures IsVerbTriple(VerbFrom(t, i, verbs, fixed).value, fixed)
    decreases |t| - i
  {
    if VerbAt(t, i, verbs, fixed).Some? {
      VerbTripleAt(t, i, verbs, fixed);
    } else {
      VerbTriples(t, i + 1, verbs, fixed);
    }
  }

  lemma {:induction false} IsATriples(t: string, i: nat)
    requires IsASearch(t, i).Some?
    ensures IsASearch(t, i).value.pred == "IS_A" && HasNormalNames(IsASearch(t, i).value)
    decreases |t| - i
  {
    if Boundary(t, i) && IsAAt(t, i, i + 1).Some? {
      IsATriplesAt(t, i, i + 1);
    } else {
      IsATriples(t, i + 1);
    }
  }

  lemma {:induction false} IsATriplesAt(t: string, i: nat, e: nat)
    requires i < e && IsAAt(t, i, e).Some?
    ensures IsAAt(t, i, e).value.pred == "IS_A" && HasNormalNames(IsAAt(t, i, e).value)
    decreases |t| - e
  {
    if IsAFrom(t, e).None? {
      IsATriplesAt(t, i, e + 1);
    } else {
      NormalizedIsNormal(t[i..e], "IS_A", IsAFrom(t, e).value);
    }
  }

  /** The vocabulary: whatever the sentence, a pattern finds one of nine predicates; unless it
      is IS_A the subject is User, Agent or Client; and names come stripped and title-cased. */
  lemma PatternsFindKnownTriples(p: nat, s: string)
    requires p < |PATTERNS| && PATTERNS[p](s).Some?
    ensures var t := PATTERNS[p](s).value;
      && (IsFeeling(t.pred) || t.pred == "WORKS_FOR" || t.pred == "LIVES_IN" || t.pred == "USES" || t.pred == "IS_A")
      && (t.pred != "IS_A" ==> IsSubjectWord(Lower(t.subj)))
      && HasNormalNames(t)
  {
    if p == 0 { VerbTriples(s, 0, FEELINGS, None); }
    if p == 1 { VerbTriples(s, 0, EMPLOYMENTS, Some("WORKS_FOR")); }
    if p == 2 { VerbTriples(s, 0, RESIDENCES, Some("LIVES_IN")); }
    if p == 3 { VerbTriples(s, 0, USES, Some("USES")); }
    if p == 4 { IsATriples(s, 0); }
  }

  // --- Alternatives exclude one another ----------------------------------------------------

  /** No text starts with both. */
  predicate Apart(u: string, w: string) {
    exists p :: 0 <= p < |u| && p < |w| && u[p] != w[p]
  }

  predicate PhrasesApart(us: seq<string>, ws: seq<string>) {
    us != [] && ws != [] &&
    (Apart(us[0], ws[0]) || (us[0] == ws[0] && PhrasesApart(us[1..], ws[1..])))
  }

  predicate Exclusive(choices: seq<seq<string>>) {
    forall m, n :: 0 <= m < n < |choices| ==> PhrasesApart(choices[m], choices[n])
  }

  lemma ApartAt(u: string, w: string, p: nat)
    requires p < |u| && p < |w| && u[p] != w[p]
    ensures Apart(u, w)
  {
  }

  lemma SubjectsExclude()
    ensures Exclusive(SUBJECTS)
  {
    ApartAt("user", "agent", 0);
    ApartAt("user", "client", 0);
    ApartAt("agent", "client", 0);
  }

  lemma FeelingsExclude()
    ensures Exclusive(FEELINGS)
  {
    ApartAt("prefers", "likes", 0);
    ApartAt("prefers", "dislikes", 0);
    ApartAt("prefers", "loves", 0);
    ApartAt("prefers", "hates", 0);
    ApartAt("likes", "dislikes", 0);
    ApartAt("likes", "loves", 1);
    ApartAt("likes", "hates", 0);
    ApartAt("dislikes", "loves", 0);
    ApartAt("dislikes", "hates", 0);
    ApartAt("loves", "hates", 0);
  }

  lemma EmploymentsExclude()
    ensures Exclusive(EMPLOYMENTS)
  {
    ApartAt("at", "for", 0);
    ApartAt("works", "employed", 0);
  }

  lemma ResidencesExclude()
    ensures Exclusive(RESIDENCES)
  {
    ApartAt("lives", "resides", 0);
    ApartAt("lives", "based", 0);
    ApartAt("resides", "based", 0);
  }

  lemma UsesExclude()
    ensures Exclusive(USES)
  {
    ApartAt("using", "uses", 2);
    ApartAt("using", "switched", 0);
    ApartAt("uses", "switched", 0);
  }

  lemma VerbsExclude(p: nat)
    ensures Exclusive(Verbs(p))
  {
    if p == 0 { FeelingsExclude(); }
    else if p == 1 { EmploymentsExclude(); }
    else if p == 2 { ResidencesExclude(); }
    else { UsesExclude(); }
  }

  // --- What a match is ---------------------------------------------------------------------

  /** White space from `j` up to `k`, and no more of it. */
  predicate IsGap(t: string, j: nat, k: nat) {
    j < k <= |t| && (forall p :: j <= p < k ==> IsSpace(t[p])) && (k < |t| ==> !IsSpace(t[k]))
  }

  /** The phrase from `i` up to `e`, in whatever case and with whatever white space in it. */
  ghost predicate IsPhrase(t: string, i: nat, e: nat, words: seq<string>)
    decreases |words|
  {
    words != [] && StandsAt(t, i, words[0]) &&
    var j := i + |words[0]|;
    if |words| == 1 then e == j else exists k :: IsGap(t, j, k) && IsPhrase(t, k, e, words[1..])
  }

  /** One of the phrases stands there. */
  ghost predicate OneFits(t: string, i: nat, e: nat, choices: seq<seq<string>>) {
    exists n :: 0 <= n < |choices| && IsPhrase(t, i, e, choices[n])
  }

  /** The rest of the line from `m` up to `f`. */
  predicate IsLine(t: string, m: nat, f: nat) {
    m <= f <= |t| && (forall p :: m <= p < f ==> t[p] != '\n') && (f < |t| ==> t[f] == '\n')
  }

  /** Where the parts of a match lie: subject from `i` to `j`, verb from `k` to `e`, remainder
      from `m` to `f`. */
  datatype Spans = Spans(i: nat, j: nat, k: nat, e: nat, m: nat, f: nat)

  /** `\b(user|agent|client)\s+(verbs)\s+(.+)` matches with these parts. */
  ghost predicate IsMatch(t: string, verbs: seq<seq<string>>, p: Spans) {
    && Boundary(t, p.i)
    && OneFits(t, p.i, p.j, SUBJECTS)
    && IsGap(t, p.j, p.k)
    && OneFits(t, p.k, p.e, verbs)
    && IsGap(t, p.e, p.m) && p.m < |t| && IsLine(t, p.m, p.f)
  }

  // --- The patterns find the matches -------------------------------------------------------

  lemma {:induction false} SpacesBefore(t: string, i: nat)
    requires i <= |t|
    ensures forall p :: i <= p < SpacesEnd(t, i) ==> IsSpace(t[p])
    decreases |t| - i
  {
    if i < |t| && IsSpace(t[i]) { SpacesBefore(t, i + 1); }
  }

  lemma GapIff(t: string, j: nat, k: nat)
    ensures Gap(t, j) == Some(k) <==> IsGap(t, j, k)
  {
    if j <= |t| {
      SpacesBefore(t, j);
      if IsGap(t, j, k) { GapsAgree(t, j, SpacesEnd(t, j), k); }
    }
  }

  lemma GapsAgree(t: string, j: nat, k: nat, k': nat)
    requires IsGap(t, j, k) && IsGap(t, j, k')
    ensures k == k'
  {
  }

  lemma {:induction false} PhraseIff(t: string, i: nat, e: nat, words: seq<string>)
    requires i <= |t| && words != []
    ensures Phrase(t, i, words) == Some(e) <==> IsPhrase(t, i, e, words)
    decreases |words|
  {
    if |words| > 1 && StandsAt(t, i, words[0]) {
      var j := i + |words[0]|;
      match Gap(t, j)
      case None =>
        forall k ensures !IsGap(t, j, k) { GapIff(t, j, k); }
      case Some(next) =>
        GapIff(t, j, next);
        forall k ensures IsGap(t, j, k) <==> k == next { GapIff(t, j, k); }
        PhraseIff(t, next, e, words[1..]);
    }
  }

  lemma LowerAt(t: string, i: nat, word: string, p: nat)
    requires StandsAt(t, i, word) && p < |word|
    ensures ToLower(t[i + p]) == word[p]
  {
    assert t[i..i + |word|][p] == t[i + p];
  }

  lemma ApartStandsNot(t: string, i: nat, u: string, w: string)
    requires StandsAt(t, i, w) && Apart(u, w)
    ensures !StandsAt(t, i, u)
  {
    if StandsAt(t, i, u) {
      var p :| 0 <= p < |u| && p < |w| && u[p] != w[p];
      LowerAt(t, i, u, p);
      LowerAt(t, i, w, p);
      assert false;
    }
  }

  lemma PhraseStarts(t: string, i: nat, words: seq<string>)
    requires i <= |t| && words != [] && Phrase(t, i, words).Some?
    ensures StandsAt(t, i, words[0])
  {
  }

  lemma PhraseGoesOn(t: string, i: nat, words: seq<string>)
    requires i <= |t| && |words| > 1 && Phrase(t, i, words).Some?
    ensures var k := Gap(t, i + |words[0]|); k.Some? && Phrase(t, k.value, words[1..]).Some?
  {
  }

  lemma PhraseBreaksOff(t: string, i: nat, words: seq<string>, k: nat)
    requires i <= |t| && |words| > 1 && Gap(t, i + |words[0]|) == Some(k) && Phrase(t, k, words[1..]).None?
    ensures Phrase(t, i, words).None?
  {
  }

  lemma {:induction false} OtherPhraseFails(t: string, i: nat, us: seq<string>, ws: seq<string>)
    requires i <= |t| && Phrase(t, i, ws).Some? && PhrasesApart(us, ws)
    ensures Phrase(t, i, us).None?
    decreases |us|
  {
    PhraseStarts(t, i, ws);
    if Apart(us[0], ws[0]) {
      ApartStandsNot(t, i, us[0], ws[0]);
    } else {
      PhraseGoesOn(t, i, ws);
      var k := Gap(t, i + |us[0]|).value;
      OtherPhraseFails(t, k, us[1..], ws[1..]);
      PhraseBreaksOff(t, i, us, k);
    }
  }

  lemma FirstChoice(t: string, i: nat, choices: seq<seq<string>>)
    requires i <= |t| && choices != []
    ensures Alternative(t, i, choices)
         == if Phrase(t, i, choices[0]).Some? then Phrase(t, i, choices[0]) else Alternative(t, i, choices[1..])
  {
  }

  lemma {:induction false} ChoiceFound(t: string, i: nat, choices: seq<seq<string>>, n: nat)
    requires i <= |t| && n < |choices| && Phrase(t, i, choices[n]).Some?
    requires forall m :: 0 <= m < n ==> Phrase(t, i, choices[m]).None?
    ensures Alternative(t, i, choices) == Phrase(t, i, choices[n])
    decreases |choices|
  {
    FirstChoice(t, i, choices);
    if n > 0 {
      ChoiceFound(t, i, choices[1..], n - 1);
    }
  }

  lemma {:induction false} ChoiceMade(t: string, i: nat, choices: seq<seq<string>>) returns (n: nat)
    requires i <= |t| && Alternative(t, i, choices).Some?
    ensures n < |choices| && Phrase(t, i, choices[n]) == Alternative(t, i, choices)
    decreases |choices|
  {
    FirstChoice(t, i, choices);
    if Phrase(t, i, choices[0]).Some? {
      n := 0;
    } else {
      n := ChoiceMade(t, i, choices[1..]);
      n := n + 1;
    }
  }

  predicate NoneEmpty(choices: seq<seq<string>>) {
    forall n :: 0 <= n < |choices| ==> choices[n] != []
  }

  /** A group of alternatives takes exactly what one of them does. */
  lemma AlternativeIff(t: string, i: nat, e: nat, choices: seq<seq<string>>)
    requires i <= |t| && Exclusive(choices) && NoneEmpty(choices)
    ensures Alternative(t, i, choices) == Some(e) <==> OneFits(t, i, e, choices)
  {
    if Alternative(t, i, choices) == Some(e) {
      var n := ChoiceMade(t, i, choices);
      PhraseIff(t, i, e, choices[n]);
    }
    forall n | 0 <= n < |choices| && IsPhrase(t, i, e, choices[n]) ensures Alternative(t, i, choices) == Some(e) {
      PhraseIff(t, i, e, choices[n]);
      forall m | 0 <= m < n ensures Phrase(t, i, choices[m]).None? {
        OtherPhraseFails(t, i, choices[m], choices[n]);
      }
      ChoiceFound(t, i, choices, n);
    }
  }

  /** The parts as the pattern comes to them one by one. */
  predicate Follows(t: string, verbs: seq<seq<string>>, p: Spans) {
    && p.i <= |t| && Boundary(t, p.i) && Alternative(t, p.i, SUBJECTS) == Some(p.j)
    && Gap(t, p.j) == Some(p.k) && Alternative(t, p.k, verbs) == Some(p.e)
    && Gap(t, p.e) == Some(p.m) && p.m < |t| && p.f == LineEnd(t, p.m)
  }

  lemma {:induction false} LineBefore(t: string, i: nat)
    requires i <= |t|
    ensures forall p :: i <= p < LineEnd(t, i) ==> t[p] != '\n'
    ensures LineEnd(t, i) < |t| ==> t[LineEnd(t, i)] == '\n'
    decreases |t| - i
  {
    if i < |t| && t[i] != '\n' { LineBefore(t, i + 1); }
  }

  lemma LineIff(t: string, m: nat, f: nat)
    requires m <= |t|
    ensures IsLine(t, m, f) <==> f == LineEnd(t, m)
  {
    LineBefore(t, m);
    if IsLine(t, m, f) { LinesAgree(t, m, LineEnd(t, m), f); }
  }

  lemma LinesAgree(t: string, m: nat, f: nat, f': nat)
    requires IsLine(t, m, f) && IsLine(t, m, f')
    ensures f == f'
  {
  }

  lemma FollowsIff(t: string, verbs: seq<seq<string>>, p: Spans)
    requires Exclusive(verbs) && NoneEmpty(verbs)
    ensures Follows(t, verbs, p) <==> IsMatch(t, verbs, p)
  {
    SubjectsExclude();
    if p.i <= |t| { AlternativeIff(t, p.i, p.j, SUBJECTS); }
    GapIff(t, p.j, p.k);
    if p.k <= |t| { AlternativeIff(t, p.k, p.e, verbs); }
    GapIff(t, p.e, p.m);
    if p.m <= |t| { LineIff(t, p.m, p.f); }
  }

  /** What the pattern makes of a match. */
  function TripleAt(t: string, p: Spans, fixed: Option<string>): Triple
    requires p.i <= p.j <= p.k <= p.e <= p.m <= p.f <= |t|
  {
    Normalized(t[p.i..p.j], if fixed.Some? then fixed.value else Upper(t[p.k..p.e]), t[p.m..p.f])
  }

  lemma VerbAtFollows(t: string, verbs: seq<seq<string>>, fixed: Option<string>, p: Spans)
    requires Follows(t, verbs, p)
    ensures p.i <= p.j <= p.k <= p.e <= p.m <= p.f <= |t|
    ensures VerbAt(t, p.i, verbs, fixed) == Some(TripleAt(t, p, fixed))
  {
  }

  lemma VerbAtParts(t: string, i: nat, verbs: seq<seq<string>>, fixed: Option<string>) returns (p: Spans)
    requires i <= |t| && VerbAt(t, i, verbs, fixed).Some?
    ensures p.i == i && Follows(t, verbs, p)
  {
    var j := Alternative(t, i, SUBJECTS).value;
    var k := Gap(t, j).value;
    var e := Alternative(t, k, verbs).value;
    var m := Gap(t, e).value;
    p := Spans(i, j, k, e, m, LineEnd(t, m));
  }

  lemma {:induction false} SearchSkips(t: string, i: nat, n: nat, verbs: seq<seq<string>>, fixed: Option<string>)
    requires i <= n <= |t| && forall m :: i <= m < n ==> VerbAt(t, m, verbs, fixed).None?
    ensures VerbFrom(t, i, verbs, fixed) == VerbFrom(t, n, verbs, fixed)
    decreases n - i
  {
    if i < n {
      SearchStep(t, i, verbs, fixed);
      SearchSkips(t, i + 1, n, verbs, fixed);
    }
  }

  lemma SearchStep(t: string, i: nat, verbs: seq<seq<string>>, fixed: Option<string>)
    requires i <= |t|
    ensures VerbFrom(t, i, verbs, fixed)
         == if VerbAt(t, i, verbs, fixed).Some? then VerbAt(t, i, verbs, fixed) else VerbFrom(t, i + 1, verbs, fixed)
  {
  }

  lemma {:induction false} NowhereFrom(t: string, i: nat, verbs: seq<seq<string>>, fixed: Option<string>)
    requires forall m :: i <= m <= |t| ==> VerbAt(t, m, verbs, fixed).None?
    ensures VerbFrom(t, i, verbs, fixed).None?
    decreases |t| - i
  {
    if i <= |t| { NowhereFrom(t, i + 1, verbs, fixed); }
  }

  /** No match starts before `n`. */
  ghost predicate NoMatchBefore(t: string, verbs: seq<seq<string>>, n: nat) {
    forall p :: IsMatch(t, verbs, p) ==> p.i >= n
  }

  lemma NothingBefore(t: string, verbs: seq<seq<string>>, fixed: Option<string>, n: nat, m: nat)
    requires Exclusive(verbs) && NoneEmpty(verbs) && NoMatchBefore(t, verbs, n) && m < n && m <= |t|
    ensures VerbAt(t, m, verbs, fixed).None?
  {
    if VerbAt(t, m, verbs, fixed).Some? {
      var p := VerbAtParts(t, m, verbs, fixed);
      FollowsIff(t, verbs, p);
      assert false;
    }
  }

  /** The search finds the leftmost match. */
  lemma LeftmostMatchIsFound(t: string, verbs: seq<seq<string>>, fixed: Option<string>, p: Spans)
    requires Exclusive(verbs) && NoneEmpty(verbs) && IsMatch(t, verbs, p) && NoMatchBefore(t, verbs, p.i)
    ensures p.i <= p.j <= p.k <= p.e <= p.m <= p.f <= |t|
    ensures VerbFrom(t, 0, verbs, fixed) == Some(TripleAt(t, p, fixed))
  {
    FollowsIff(t, verbs, p);
    VerbAtFollows(t, verbs, fixed, p);
    forall m | 0 <= m < p.i ensures VerbAt(t, m, verbs, fixed).None? { NothingBefore(t, verbs, fixed, p.i, m); }
    SearchSkips(t, 0, p.i, verbs, fixed);
    SearchStep(t, p.i, verbs, fixed);
  }

  lemma VerbsAreSomething(p: nat)
    ensures NoneEmpty(Verbs(p))
  {
  }

  /** Each of the first four patterns yields the triple of its leftmost match in the sentence,
      and yields nothing exactly when the sentence has no match. */
  lemma PatternsFindLeftmostMatch(p: nat, t: string, at: Spans)
    requires p < 4
    ensures IsMatch(t, Verbs(p), at) && NoMatchBefore(t, Verbs(p), at.i) ==>
      && at.i <= at.j <= at.k <= at.e <= at.m <= at.f <= |t|
      && PATTERNS[p](t) == Some(TripleAt(t, at, FixedPredicate(p)))
    ensures PATTERNS[p](t).None? <==> forall q :: !IsMatch(t, Verbs(p), q)
  {
    VerbsExclude(p);
    VerbsAreSomething(p);
    if IsMatch(t, Verbs(p), at) && NoMatchBefore(t, Verbs(p), at.i) {
      LeftmostMatchIsFound(t, Verbs(p), FixedPredicate(p), at);
    }
    NothingIff(t, Verbs(p), FixedPredicate(p));
    assert PATTERNS[p](t) == VerbFrom(t, 0, Verbs(p), FixedPredicate(p));
  }

  lemma NothingIff(t: string, verbs: seq<seq<string>>, fixed: Option<string>)
    requires Exclusive(verbs) && NoneEmpty(verbs)
    ensures VerbFrom(t, 0, verbs, fixed).None? <==> forall q :: !IsMatch(t, verbs, q)
  {
    if forall q :: !IsMatch(t, verbs, q) {
      forall m | 0 <= m <= |t| ensures VerbAt(t, m, verbs, fixed).None? {
        NothingBefore(t, verbs, fixed, |t| + 1, m);
      }
      NowhereFrom(t, 0, verbs, fixed);
    }
    forall q | IsMatch(t, verbs, q) ensures VerbFrom(t, 0, verbs, fixed).Some? {
      FollowsIff(t, verbs, q);
      VerbAtFollows(t, verbs, fixed, q);
      FoundSomewhere(t, 0, q.i, verbs, fixed);
    }
  }

  lemma {:induction false} FoundSomewhere(t: string, i: nat, n: nat, verbs: seq<seq<string>>, fixed: Option<string>)
    requires i <= n <= |t| && VerbAt(t, n, verbs, fixed).Some?
    ensures VerbFrom(t, i, verbs, fixed).Some?
    decreases n - i
  {
    if i < n { FoundSomewhere(t, i + 1, n, verbs, fixed); }
  }

  // --- The last pattern --------------------------------------------------------------------

  /** Where the parts of `\b(.+?)\s+is\s+(?:a|an)\s+(.+)` lie: the name from `i` to `e`, `is` at
      `g`, the article from `k` to `n`, the remainder from `m` to `f`. */
  datatype IsASpans = IsASpans(i: nat, e: nat, g: nat, k: nat, n: nat, m: nat, f: nat)

  predicate IsArticle(t: string, k: nat, n: nat) {
    (StandsAt(t, k, "a") && n == k + 1) || (StandsAt(t, k, "an") && n == k + 2)
  }

  predicate IsIsATail(t: string, p: IsASpans) {
    && IsGap(t, p.e, p.g) && StandsAt(t, p.g, "is") && IsGap(t, p.g + 2, p.k)
    && IsArticle(t, p.k, p.n) && IsGap(t, p.n, p.m) && p.m < |t| && IsLine(t, p.m, p.f)
  }

  predicate IsIsAMatch(t: string, p: IsASpans) {
    Boundary(t, p.i) && p.i < p.e <= |t| && (forall q :: p.i <= q < p.e ==> t[q] != '\n') && IsIsATail(t, p)
  }

  lemma RestIff(t: string, n: nat, m: nat, f: nat)
    ensures IsGap(t, n, m) && m < |t| && IsLine(t, m, f) ==> Rest(t, n) == Some(t[m..f])
    ensures Rest(t, n).Some? ==>
      Gap(t, n).Some? && IsGap(t, n, Gap(t, n).value) && Gap(t, n).value < |t|
      && IsLine(t, Gap(t, n).value, LineEnd(t, Gap(t, n).value))
  {
    GapIff(t, n, m);
    if m <= |t| { LineIff(t, m, f); }
    if Gap(t, n).Some? {
      GapIff(t, n, Gap(t, n).value);
      LineIff(t, Gap(t, n).value, LineEnd(t, Gap(t, n).value));
    }
  }

  lemma ArticleUnfolds(t: string, k: nat)
    requires k <= |t|
    ensures ArticleThenRest(t, k, ARTICLES) ==
      if StandsAt(t, k, "a") && Rest(t, k + 1).Some? then Rest(t, k + 1)
      else if StandsAt(t, k, "an") then Rest(t, k + 2)
      else None
  {
    assert ARTICLES[1..] == [["an"]] && ARTICLES[1..][1..] == [];
    assert ArticleThenRest(t, k, []) == None;
    assert ArticleThenRest(t, k, [["an"]]) == if StandsAt(t, k, "an") then Rest(t, k + 2) else None;
  }

  /** After `an` there is no white space behind the `a`. */
  lemma ArticlesExclude(t: string, k: nat)
    requires StandsAt(t, k, "an")
    ensures Rest(t, k + 1).None?
  {
    LowerAt(t, k, "an", 1);
    CaseKeepsKind(t[k + 1]);
  }

  lemma ArticleFound(t: string, k: nat, n: nat, m: nat, f: nat)
    requires k <= |t| && IsArticle(t, k, n) && IsGap(t, n, m) && m < |t| && IsLine(t, m, f)
    ensures ArticleThenRest(t, k, ARTICLES) == Some(t[m..f])
  {
    RestIff(t, n, m, f);
    ArticleUnfolds(t, k);
    if n == k + 2 { ArticlesExclude(t, k); }
  }

  lemma ArticleMade(t: string, k: nat) returns (n: nat, m: nat, f: nat)
    requires k <= |t| && ArticleThenRest(t, k, ARTICLES).Some?
    ensures IsArticle(t, k, n) && IsGap(t, n, m) && m < |t| && IsLine(t, m, f)
  {
    ArticleUnfolds(t, k);
    n := if StandsAt(t, k, "a") && Rest(t, k + 1).Some? then k + 1 else k + 2;
    RestIff(t, n, 0, 0);
    m := Gap(t, n).value;
    f := LineEnd(t, m);
  }

  lemma TailUnfolds(t: string, e: nat, g: nat, k: nat)
    requires Gap(t, e) == Some(g) && StandsAt(t, g, "is") && Gap(t, g + 2) == Some(k)
    ensures IsAFrom(t, e) == ArticleThenRest(t, k, ARTICLES)
  {
  }

  lemma TailFound(t: string, p: IsASpans)
    requires IsIsATail(t, p)
    ensures p.m <= p.f <= |t| && IsAFrom(t, p.e) == Some(t[p.m..p.f])
  {
    GapIff(t, p.e, p.g);
    GapIff(t, p.g + 2, p.k);
    TailUnfolds(t, p.e, p.g, p.k);
    ArticleFound(t, p.k, p.n, p.m, p.f);
  }

  lemma TailMade(t: string, i: nat, e: nat) returns (p: IsASpans)
    requires IsAFrom(t, e).Some?
    ensures p.i == i && p.e == e && IsIsATail(t, p)
  {
    var g := Gap(t, e).value;
    var k := Gap(t, g + 2).value;
    GapIff(t, e, g);
    GapIff(t, g + 2, k);
    TailUnfolds(t, e, g, k);
    var n, m, f := ArticleMade(t, k);
    p := IsASpans(i, e, g, k, n, m, f);
  }

  /** No tail follows on a name that starts at `i` and ends before `n`. */
  ghost predicate NoShorter(t: string, i: nat, n: nat) {
    forall q :: IsIsAMatch(t, q) && q.i == i ==> q.e >= n
  }

  lemma IsAStep(t: string, i: nat, e: nat)
    requires i < e <= |t| && t[e - 1] != '\n'
    ensures IsAAt(t, i, e) ==
      if IsAFrom(t, e).Some? then Some(Normalized(t[i..e], "IS_A", IsAFrom(t, e).value)) else IsAAt(t, i, e + 1)
  {
  }

  /** The name goes on beyond `q`. */
  predicate Skips(t: string, q: nat) { 0 < q <= |t| && IsAFrom(t, q).None? && t[q - 1] != '\n' }

  lemma {:induction false} SkipNames(t: string, i: nat, e: nat, n: nat)
    requires i < e <= n <= |t| && forall q :: e <= q < n ==> Skips(t, q)
    ensures IsAAt(t, i, e) == IsAAt(t, i, n)
    decreases n - e
  {
    if e < n {
      assert Skips(t, e);
      IsAStep(t, i, e);
      SkipNames(t, i, e + 1, n);
    }
  }

  lemma NameFound(t: string, i: nat, e: nat, rest: string)
    requires i < e <= |t| && t[e - 1] != '\n' && IsAFrom(t, e) == Some(rest)
    requires IsAAt(t, i, i + 1) == IsAAt(t, i, e)
    ensures IsAAt(t, i, i + 1) == Some(Normalized(t[i..e], "IS_A", rest))
  {
    IsAStep(t, i, e);
  }

  lemma NamesSkipped(t: string, p: IsASpans)
    requires IsIsAMatch(t, p) && NoShorter(t, p.i, p.e)
    ensures IsAAt(t, p.i, p.i + 1) == IsAAt(t, p.i, p.e)
  {
    forall q | p.i + 1 <= q < p.e ensures Skips(t, q) { NoTailBefore(t, q, p); }
    SkipNames(t, p.i, p.i + 1, p.e);
  }

  lemma ShortestFound(t: string, p: IsASpans, rest: string)
    requires IsIsAMatch(t, p) && NoShorter(t, p.i, p.e) && IsAFrom(t, p.e) == Some(rest)
    ensures IsAAt(t, p.i, p.i + 1) == Some(Normalized(t[p.i..p.e], "IS_A", rest))
  {
    NamesSkipped(t, p);
    NameFound(t, p.i, p.e, rest);
  }

  lemma ShorterIsMatch(t: string, p: IsASpans, q: IsASpans)
    requires IsIsAMatch(t, p) && q.i == p.i && q.i < q.e < p.e && IsIsATail(t, q)
    ensures IsIsAMatch(t, q)
  {
  }

  lemma NoTailBefore(t: string, e: nat, p: IsASpans)
    requires IsIsAMatch(t, p) && p.i < e < p.e && NoShorter(t, p.i, p.e)
    ensures IsAFrom(t, e).None?
  {
    if IsAFrom(t, e).Some? {
      var q := TailMade(t, p.i, e);
      ShorterIsMatch(t, p, q);
      assert false;
    }
  }

  lemma {:induction false} MatchMadeAt(t: string, i: nat, e: nat) returns (p: IsASpans)
    requires i < e && Boundary(t, i) && IsAAt(t, i, e).Some?
    requires forall q :: i <= q < e - 1 && q < |t| ==> t[q] != '\n'
    ensures p.i == i && IsIsAMatch(t, p)
    decreases |t| - e
  {
    if IsAFrom(t, e).Some? {
      p := TailMade(t, i, e);
    } else {
      p := MatchMadeAt(t, i, e + 1);
    }
  }

  ghost predicate NoIsAMatchBefore(t: string, n: nat) {
    forall q :: IsIsAMatch(t, q) ==> q.i >= n
  }

  lemma NoIsAAt(t: string, i: nat, n: nat)
    requires i < n && NoIsAMatchBefore(t, n) && Boundary(t, i)
    ensures IsAAt(t, i, i + 1).None?
  {
    if IsAAt(t, i, i + 1).Some? {
      var q := MatchMadeAt(t, i, i + 1);
      assert false;
    }
  }

  lemma IsASearchStep(t: string, i: nat)
    requires i <= |t|
    ensures IsASearch(t, i)
         == if Boundary(t, i) && IsAAt(t, i, i + 1).Some? then IsAAt(t, i, i + 1) else IsASearch(t, i + 1)
  {
  }

  lemma {:induction false} IsASearchSkips(t: string, i: nat, n: nat)
    requires i <= n <= |t| && NoIsAMatchBefore(t, n)
    ensures IsASearch(t, i) == IsASearch(t, n)
    decreases n - i
  {
    if i < n {
      if Boundary(t, i) { NoIsAAt(t, i, n); }
      IsASearchStep(t, i);
      IsASearchSkips(t, i + 1, n);
    }
  }

  /** The last pattern yields the leftmost match, of those the one with the shortest name. */
  lemma LastPatternFindsShortestMatch(t: string, p: IsASpans)
    requires IsIsAMatch(t, p) && NoShorter(t, p.i, p.e) && NoIsAMatchBefore(t, p.i)
    ensures p.m <= p.f <= |t| && PATTERNS[4](t) == Some(Normalized(t[p.i..p.e], "IS_A", t[p.m..p.f]))
  {
    TailFound(t, p);
    ShortestFound(t, p, t[p.m..p.f]);
    IsASearchSkips(t, 0, p.i);
    IsASearchStep(t, p.i);
    assert PATTERNS[4](t) == IsASearch(t, 0);
  }

  lemma {:induction false} IsAMade(t: string, i: nat) returns (p: IsASpans)
    requires IsASearch(t, i).Some?
    ensures IsIsAMatch(t, p)
    decreases |t| - i
  {
    if Boundary(t, i) && IsAAt(t, i, i + 1).Some? {
      p := MatchMadeAt(t, i, i + 1);
    } else {
      p := IsAMade(t, i + 1);
    }
  }

  lemma {:induction false} SomeName(t: string, e: nat, q: IsASpans)
    requires IsIsAMatch(t, q) && q.i < e <= q.e
    ensures IsAAt(t, q.i, e).Some?
    decreases q.e - e
  {
    IsAStep(t, q.i, e);
    if e < q.e { SomeName(t, e + 1, q); } else { TailFound(t, q); }
  }

  lemma {:induction false} SomeIsA(t: string, i: nat, q: IsASpans)
    requires IsIsAMatch(t, q) && i <= q.i
    ensures IsASearch(t, i).Some?
    decreases q.i - i
  {
    IsASearchStep(t, i);
    if i < q.i { SomeIsA(t, i + 1, q); } else { SomeName(t, i + 1, q); }
  }

  /** And it yields nothing exactly when there is no match. */
  lemma LastPatternFindsMatches(t: string)
    ensures PATTERNS[4](t).None? <==> forall q :: !IsIsAMatch(t, q)
  {
    assert PATTERNS[4](t) == IsASearch(t, 0);
    if IsASearch(t, 0).Some? { var q := IsAMade(t, 0); }
    forall q | IsIsAMatch(t, q) ensures IsASearch(t, 0).Some? { SomeIsA(t, 0, q); }
  }

  // --- Which words give which triple -------------------------------------------------------------

  lemma FitsFirstOrRest(t: string, i: nat, e: nat, first: seq<string>, rest: seq<seq<string>>)
    ensures OneFits(t, i, e, [first] + rest) <==> IsPhrase(t, i, e, first) || OneFits(t, i, e, rest)
  {
    var choices := [first] + rest;
    if IsPhrase(t, i, e, first) { assert choices[0] == first; }
    forall n | 0 <= n < |rest| && IsPhrase(t, i, e, rest[n]) ensures OneFits(t, i, e, choices) {
      assert choices[n + 1] == rest[n];
    }
    forall n | 0 <= n < |choices| && IsPhrase(t, i, e, choices[n])
      ensures IsPhrase(t, i, e, first) || OneFits(t, i, e, rest)
    {
      if n > 0 { assert choices[n] == rest[n - 1]; }
    }
  }

  lemma OneOfThree(t: string, i: nat, e: nat, a: seq<string>, b: seq<string>, c: seq<string>)
    ensures OneFits(t, i, e, [a, b, c]) <==> IsPhrase(t, i, e, a) || IsPhrase(t, i, e, b) || IsPhrase(t, i, e, c)
  {
    FitsFirstOrRest(t, i, e, a, [b, c]);
    FitsFirstOrRest(t, i, e, b, [c]);
    FitsFirstOrRest(t, i, e, c, []);
    assert [a] + [b, c] == [a, b, c] && [b] + [c] == [b, c] && [c] + [] == [c];
  }

  /** The subjects that the patterns know, and the verbs of each. */
  lemma SubjectPhrases(t: string, i: nat, e: nat)
    ensures OneFits(t, i, e, SUBJECTS)
      <==> IsPhrase(t, i, e, ["user"]) || IsPhrase(t, i, e, ["agent"]) || IsPhrase(t, i, e, ["client"])
  {
    OneOfThree(t, i, e, ["user"], ["agent"], ["client"]);
  }

  lemma FeelingPhrases(t: string, i: nat, e: nat)
    ensures OneFits(t, i, e, Verbs(0))
      <==> IsPhrase(t, i, e, ["prefers"]) || IsPhrase(t, i, e, ["likes"]) || IsPhrase(t, i, e, ["dislikes"])
           || IsPhrase(t, i, e, ["loves"]) || IsPhrase(t, i, e, ["hates"])
  {
    FitsFirstOrRest(t, i, e, ["prefers"], [["likes"], ["dislikes"], ["loves"], ["hates"]]);
    FitsFirstOrRest(t, i, e, ["likes"], [["dislikes"], ["loves"], ["hates"]]);
    OneOfThree(t, i, e, ["dislikes"], ["loves"], ["hates"]);
    assert Verbs(0) == [["prefers"]] + ([["likes"]] + [["dislikes"], ["loves"], ["hates"]]);
    assert [["likes"]] + [["dislikes"], ["loves"], ["hates"]] == [["likes"], ["dislikes"], ["loves"], ["hates"]];
  }

  lemma EmploymentPhrases(t: string, i: nat, e: nat)
    ensures OneFits(t, i, e, Verbs(1))
      <==> IsPhrase(t, i, e, ["works", "at"]) || IsPhrase(t, i, e, ["works", "for"])
           || IsPhrase(t, i, e, ["employed", "by"])
  {
    OneOfThree(t, i, e, ["works", "at"], ["works", "for"], ["employed", "by"]);
  }

  lemma ResidencePhrases(t: string, i: nat, e: nat)
    ensures OneFits(t, i, e, Verbs(2))
      <==> IsPhrase(t, i, e, ["lives", "in"]) || IsPhrase(t, i, e, ["resides", "in"])
           || IsPhrase(t, i, e, ["based", "in"])
  {
    OneOfThree(t, i, e, ["lives", "in"], ["resides", "in"], ["based", "in"]);
  }

  lemma UsePhrases(t: string, i: nat, e: nat)
    ensures OneFits(t, i, e, Verbs(3))
      <==> IsPhrase(t, i, e, ["using"]) || IsPhrase(t, i, e, ["uses"]) || IsPhrase(t, i, e, ["switched", "to"])
  {
    OneOfThree(t, i, e, ["using"], ["uses"], ["switched", "to"]);
  }

  /** What a match comes to: subject and remainder stripped and title-cased, and the predicate of the
      verb, which is the verb itself in upper case when it is a feeling. */
  lemma MatchGivesTriple(p: nat, t: string, at: Spans)
    requires p < 4 && at.i <= at.j <= at.k <= at.e <= at.m <= at.f <= |t|
    ensures var triple := TripleAt(t, at, FixedPredicate(p));
      && triple.subj == Title(Strip(t[at.i..at.j])) && triple.obj == Title(Strip(t[at.m..at.f]))
      && triple.pred == if p == 0 then Upper(t[at.k..at.e]) else if p == 1 then "WORKS_FOR"
                        else if p == 2 then "LIVES_IN" else "USES"
  {
  }
}
