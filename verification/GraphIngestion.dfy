/** From text to graph: triples extracted sentence by sentence and ingested one by one. */
module GraphIngestion {
  import opened Wrappers
  import opened Strings
  import opened KnowledgeGraph
  import opened TriplePatterns

  // --- Extraction ----------------------------------------------------------------------

  predicate IsUsable(t: Option<Triple>) {
    t.Some? && |t.value.subj| > 1 && |t.value.obj| > 1
  }

  /** The triple of the first pattern that matches with both parts longer than one character. */
  function FirstTriple(patterns: seq<Pattern>, sentence: string): Option<Triple> {
    if |patterns| == 0 then None
    else if IsUsable(patterns[0](sentence)) then patterns[0](sentence)
    else FirstTriple(patterns[1..], sentence)
  }

  function TripleOf(patterns: seq<Pattern>, piece: string): seq<Triple> {
    var sentence := Strip(piece);
    if sentence == "" then []
    else
      match FirstTriple(patterns, sentence)
      case None => []
      case Some(t) => [t]
  }

  function TriplesOf(patterns: seq<Pattern>, pieces: seq<string>): seq<Triple> {
    if pieces == [] then []
    else TriplesOf(patterns, pieces[..|pieces| - 1]) + TripleOf(patterns, pieces[|pieces| - 1])
  }

  function Extracted(patterns: seq<Pattern>, text: string): seq<Triple> {
    TriplesOf(patterns, SplitDots(text))
  }

  /** The sentence's triple comes from the first pattern that is usable on it. */
  lemma {:induction false} FirstTripleIsFirst(patterns: seq<Pattern>, sentence: string)
    ensures var t := FirstTriple(patterns, sentence);
      if t.None? then forall i :: 0 <= i < |patterns| ==> !IsUsable(patterns[i](sentence))
      else exists i :: 0 <= i < |patterns| && patterns[i](sentence) == t && IsUsable(t)
                       && forall j :: 0 <= j < i ==> !IsUsable(patterns[j](sentence))
  {
    if |patterns| > 0 && !IsUsable(patterns[0](sentence)) {
      var rest := patterns[1..];
      FirstTripleIsFirst(rest, sentence);
      if FirstTriple(rest, sentence).Some? {
        var i :| 0 <= i < |rest| && rest[i](sentence) == FirstTriple(rest, sentence)
                 && forall j :: 0 <= j < i ==> !IsUsable(rest[j](sentence));
        assert patterns[i + 1] == rest[i];
        forall j | 0 <= j < i + 1 ensures !IsUsable(patterns[j](sentence)) {
          if j > 0 { assert patterns[j] == rest[j - 1]; }
        }
      } else {
        forall j | 0 <= j < |patterns| ensures !IsUsable(patterns[j](sentence)) {
          if j > 0 { assert patterns[j] == rest[j - 1]; }
        }
      }
    }
  }

  /** A pattern that yields two names longer than one character is not passed over for nothing. */
  lemma {:induction false} LongNamesAreTaken(patterns: seq<Pattern>, sentence: string, p: nat)
    requires p < |patterns| && patterns[p](sentence).Some?
    requires |patterns[p](sentence).value.subj| > 1 && |patterns[p](sentence).value.obj| > 1
    ensures FirstTriple(patterns, sentence).Some?
  {
    if p > 0 { LongNamesAreTaken(patterns[1..], sentence, p - 1); }
  }

  lemma {:induction false} TakenNamesAreLong(patterns: seq<Pattern>, sentence: string)
    requires FirstTriple(patterns, sentence).Some?
    ensures var t := FirstTriple(patterns, sentence).value; |t.subj| > 1 && |t.obj| > 1
  {
    if patterns != [] && !IsUsable(patterns[0](sentence)) { TakenNamesAreLong(patterns[1..], sentence); }
  }

  lemma {:induction false} TriplesHaveLongNames(patterns: seq<Pattern>, pieces: seq<string>)
    ensures forall t :: t in TriplesOf(patterns, pieces) ==> |t.subj| > 1 && |t.obj| > 1
  {
    if pieces != [] {
      var last := |pieces| - 1;
      TriplesHaveLongNames(patterns, pieces[..last]);
      if FirstTriple(patterns, Strip(pieces[last])).Some? { TakenNamesAreLong(patterns, Strip(pieces[last])); }
    }
  }

  /** No name in the graph that text put there is shorter than two characters. */
  lemma ExtractedNamesAreLong(patterns: seq<Pattern>, text: string)
    ensures forall t :: t in Extracted(patterns, text) ==> |t.subj| > 1 && |t.obj| > 1
  {
    TriplesHaveLongNames(patterns, SplitDots(text));
  }

  /** A text without full stops is one sentence: what is found in it stripped, if anything. */
  lemma SentenceYieldsOne(patterns: seq<Pattern>, t: string)
    requires '.' !in t
    ensures Extracted(patterns, t)
         == if Strip(t) == "" || FirstTriple(patterns, Strip(t)) == None then []
            else [FirstTriple(patterns, Strip(t)).value]
  {
    WithoutDots(t);
    assert TriplesOf(patterns, [t]) == TriplesOf(patterns, []) + TripleOf(patterns, t);
  }

  lemma {:induction false} WithoutDots(t: string)
    requires '.' !in t
    ensures SplitDots(t) == [t]
  {
    if t != [] {
      assert t[0] in t;
      WithoutDots(t[1..]);
      assert [t[0]] + t[1..] == t;
    }
  }

  lemma {:induction false} FirstUsable(patterns: seq<Pattern>, sentence: string, p: nat)
    requires p < |patterns| && IsUsable(patterns[p](sentence))
    requires forall q :: 0 <= q < p ==> !IsUsable(patterns[q](sentence))
    ensures FirstTriple(patterns, sentence) == patterns[p](sentence)
  {
    if p > 0 { FirstUsable(patterns[1..], sentence, p - 1); }
  }

  lemma SingleSentence(patterns: seq<Pattern>, t: string, p: nat)
    requires t != "" && '.' !in t && !IsSpace(t[0]) && !IsSpace(t[|t| - 1])
    requires p < |patterns| && IsUsable(patterns[p](t))
    requires forall q :: 0 <= q < p ==> !IsUsable(patterns[q](t))
    ensures Extracted(patterns, t) == [patterns[p](t).value]
  {
    WithoutDots(t);
    NothingToStrip(t);
    FirstUsable(patterns, t, p);
    assert TriplesOf(patterns, [t]) == TriplesOf(patterns, []) + TripleOf(patterns, t);
  }

  /** A sentence with a match of one of the verb patterns yields the triple of its leftmost
      match and nothing else, if both its names are longer than one character and no earlier
      pattern is usable; what later patterns would find does not count. */
  lemma StatedTripleIsExtracted(p: nat, t: string, at: Spans)
    requires p < 4 && t != "" && '.' !in t && !IsSpace(t[0]) && !IsSpace(t[|t| - 1])
    requires IsMatch(t, Verbs(p), at) && NoMatchBefore(t, Verbs(p), at.i)
    requires IsUsable(PATTERNS[p](t)) && forall q :: 0 <= q < p ==> !IsUsable(PATTERNS[q](t))
    ensures at.i <= at.j <= at.k <= at.e <= at.m <= at.f <= |t|
    ensures Extracted(PATTERNS, t) == [TripleAt(t, at, FixedPredicate(p))]
  {
    PatternsFindLeftmostMatch(p, t, at);
    SingleSentence(PATTERNS, t, p);
  }

  method ExtractHeuristicTriples(patterns: seq<Pattern>, text: string) returns (triples: seq<Triple>)
    ensures triples == Extracted(patterns, text)
  {
    triples := [];
    var sentences := SplitDots(text);
    for k := 0 to |sentences|
      invariant triples == TriplesOf(patterns, sentences[..k])
    {
      assert sentences[..k + 1][..k] == sentences[..k];
      var s := Strip(sentences[k]);
      if s == "" { continue; }
      ghost var before := triples;
      for i := 0 to |patterns|
        invariant triples == before
        invariant FirstTriple(patterns, s) == FirstTriple(patterns[i..], s)
      {
        assert patterns[i..][0] == patterns[i] && patterns[i..][1..] == patterns[i + 1..];
        var found := patterns[i](s);
        if found.Some? {
          var t := found.value;
          if |t.subj| > 1 && |t.obj| > 1 {
            triples := triples + [t];
            break;
          }
        }
      }
    }
    assert sentences[..|sentences|] == sentences;
  }

  lemma {:induction false} TriplesOfJoin(patterns: seq<Pattern>, xs: seq<string>, ys: seq<string>)
    ensures TriplesOf(patterns, xs + ys) == TriplesOf(patterns, xs) + TriplesOf(patterns, ys)
    decreases |ys|
  {
    if ys == [] {
      assert xs + ys == xs;
    } else {
      var init := ys[..|ys| - 1];
      assert (xs + ys)[..|xs + ys| - 1] == xs + init;
      TriplesOfJoin(patterns, xs, init);
      LastOfBoth(TriplesOf(patterns, xs), TriplesOf(patterns, init), TripleOf(patterns, ys[|ys| - 1]));
    }
  }

  lemma LastOfBoth(x: seq<Triple>, y: seq<Triple>, z: seq<Triple>)
    ensures (x + y) + z == x + (y + z)
  {
  }

  /** Extraction works sentence by sentence: joining two texts with a full stop joins what
      is extracted from them. */
  lemma ExtractionDistributes(patterns: seq<Pattern>, a: string, b: string)
    ensures Extracted(patterns, a + "." + b) == Extracted(patterns, a) + Extracted(patterns, b)
  {
    SplitJoined(a, b);
    TriplesOfJoin(patterns, SplitDots(a), SplitDots(b));
  }

  // --- Ingestion -----------------------------------------------------------------------

  function Asserted(tenant: TenantId, user: string, triples: seq<Triple>): seq<Assertion> {
    if triples == [] then []
    else Asserted(tenant, user, triples[..|triples| - 1]) + [Assertion(tenant, user, triples[|triples| - 1])]
  }

  /** The graph after `text` was ingested for a user. */
  function Ingested(g: Graph, patterns: seq<Pattern>, tenant: TenantId, user: string, text: string): Graph {
    WithAssertions(g, Asserted(tenant, user, Extracted(patterns, text)))
  }

  method IngestTriple(store: GraphStore, tenant: TenantId, user: string, t: Triple)
    requires store.Valid()
    modifies store
    ensures store.Valid() && store.View() == WithAssertion(old(store.View()), Assertion(tenant, user, t))
  {
    ghost var g, a := store.View(), Assertion(tenant, user, t);
    var subj := store.UpsertNode(tenant, user, t.subj, KindOfSubject(t.subj), map[]);
    var obj := store.UpsertNode(tenant, user, t.obj, Concept, map[]);
    assert Relation(tenant, KeyOf(store.nodes[subj]), KeyOf(store.nodes[obj]), t.pred) == a.Rel();
    ghost var named := store.View();
    assert named.weights == g.weights && named.kinds == WithAssertion(g, a).kinds;
    var _ := store.AddRelation(tenant, subj, obj, t.pred, 1.0);
    assert store.View() == named.(weights := Reinforced(named.weights, a.Rel(), 1.0));
  }

  lemma AssertOneMore(g: Graph, tenant: TenantId, user: string, triples: seq<Triple>, n: nat)
    requires n < |triples|
    ensures WithAssertions(g, Asserted(tenant, user, triples[..n + 1]))
         == WithAssertion(WithAssertions(g, Asserted(tenant, user, triples[..n])), Assertion(tenant, user, triples[n]))
  {
    assert triples[..n + 1][..n] == triples[..n];
    var before := Asserted(tenant, user, triples[..n]);
    assert (before + [Assertion(tenant, user, triples[n])])[..|before|] == before;
  }

  method ExtractAndStoreTriples(store: GraphStore, patterns: seq<Pattern>, tenant: TenantId, user: string, text: string)
    returns (triples: seq<Triple>)
    requires store.Valid()
    modifies store
    ensures store.Valid() && store.View() == Ingested(old(store.View()), patterns, tenant, user, text)
    ensures triples == Extracted(patterns, text)
  {
    triples := ExtractHeuristicTriples(patterns, text);
    ghost var g := store.View();
    for i := 0 to |triples|
      invariant store.Valid() && store.View() == WithAssertions(g, Asserted(tenant, user, triples[..i]))
    {
      AssertOneMore(g, tenant, user, triples, i);
      IngestTriple(store, tenant, user, triples[i]);
    }
    assert triples[..|triples|] == triples;
  }

  lemma {:induction false} AssertedJoin(tenant: TenantId, user: string, xs: seq<Triple>, ys: seq<Triple>)
    ensures Asserted(tenant, user, xs + ys) == Asserted(tenant, user, xs) + Asserted(tenant, user, ys)
    decreases |ys|
  {
    if ys == [] {
      assert xs + ys == xs;
    } else {
      assert (xs + ys)[..|xs + ys| - 1] == xs + ys[..|ys| - 1];
      AssertedJoin(tenant, user, xs, ys[..|ys| - 1]);
    }
  }

  lemma {:induction false} AssertionsJoin(g: Graph, xs: seq<Assertion>, ys: seq<Assertion>)
    ensures WithAssertions(g, xs + ys) == WithAssertions(WithAssertions(g, xs), ys)
    decreases |ys|
  {
    if ys == [] {
      assert xs + ys == xs;
    } else {
      assert (xs + ys)[..|xs + ys| - 1] == xs + ys[..|ys| - 1];
      AssertionsJoin(g, xs, ys[..|ys| - 1]);
    }
  }

  /** Ingesting "a.b" leaves the graph that ingesting a and then b leaves. */
  lemma IngestionDistributes(g: Graph, patterns: seq<Pattern>, tenant: TenantId, user: string, a: string, b: string)
    ensures Ingested(g, patterns, tenant, user, a + "." + b)
         == Ingested(Ingested(g, patterns, tenant, user, a), patterns, tenant, user, b)
  {
    ExtractionDistributes(patterns, a, b);
    AssertedJoin(tenant, user, Extracted(patterns, a), Extracted(patterns, b));
    AssertionsJoin(g, Asserted(tenant, user, Extracted(patterns, a)), Asserted(tenant, user, Extracted(patterns, b)));
  }

  // --- What the graph comes to ---------------------------------------------------------

  function Occurrences(asserted: seq<Assertion>, r: Relation): nat {
    if asserted == [] then 0
    else Occurrences(asserted[..|asserted| - 1], r) + if asserted[|asserted| - 1].Rel() == r then 1 else 0
  }

  function KindGiven(a: Assertion, key: NodeKey): Option<NodeKind> {
    if a.Subject() == key then Some(KindOfSubject(a.triple.subj))
    else if a.Object() == key then Some(Concept)
    else None
  }

  /** The kind given by the first assertion that mentions the name. */
  function FirstKind(asserted: seq<Assertion>, key: NodeKey): Option<NodeKind> {
    if asserted == [] then None
    else if KindGiven(asserted[0], key).Some? then KindGiven(asserted[0], key)
    else FirstKind(asserted[1..], key)
  }

  function Mentioned(asserted: seq<Assertion>): set<NodeKey> {
    (set a | a in asserted :: a.Subject()) + (set a | a in asserted :: a.Object())
  }

  /** One assertion after the others. */
  lemma {:induction false} FirstKindThen(asserted: seq<Assertion>, a: Assertion, key: NodeKey)
    ensures FirstKind(asserted + [a], key)
         == if FirstKind(asserted, key).Some? then FirstKind(asserted, key) else KindGiven(a, key)
  {
    if asserted != [] {
      assert (asserted + [a])[1..] == asserted[1..] + [a];
      FirstKindThen(asserted[1..], a, key);
    }
  }

  /** Step-by-step ingestion is a batch aggregate: a relation ends at 1 plus 0.5 for every
      further occurrence, or at what it weighed before plus 0.5 for every occurrence. */
  lemma {:induction false} WeightsAreCounts(g: Graph, asserted: seq<Assertion>, r: Relation)
    ensures var weights, n := WithAssertions(g, asserted).weights, Occurrences(asserted, r);
      && (r in weights <==> r in g.weights || n > 0)
      && (r in g.weights ==> weights[r] == g.weights[r] + 0.5 * n as real)
      && (r !in g.weights && n > 0 ==> weights[r] == 1.0 + 0.5 * (n - 1) as real)
  {
    if asserted != [] {
      WeightsAreCounts(g, asserted[..|asserted| - 1], r);
    }
  }

  lemma OneMoreMention(g: Graph, a: Assertion, key: NodeKey)
    ensures var kinds := WithAssertion(g, a).kinds;
      && (key in kinds <==> key in g.kinds || KindGiven(a, key).Some?)
      && (key in g.kinds ==> kinds[key] == g.kinds[key])
      && (key !in g.kinds && KindGiven(a, key).Some? ==> kinds[key] == KindGiven(a, key).value)
  {
  }

  /** A name has one node, whose kind is fixed by its first mention. */
  lemma {:induction false} KindsAreFirstMentions(g: Graph, asserted: seq<Assertion>, key: NodeKey)
    ensures var kinds, first := WithAssertions(g, asserted).kinds, FirstKind(asserted, key);
      && (key in kinds <==> key in g.kinds || first.Some?)
      && (key in g.kinds ==> kinds[key] == g.kinds[key])
      && (key !in g.kinds && first.Some? ==> kinds[key] == first.value)
  {
    if asserted != [] {
      var init, last := asserted[..|asserted| - 1], asserted[|asserted| - 1];
      KindsAreFirstMentions(g, init, key);
      assert asserted == init + [last];
      FirstKindThen(init, last, key);
      OneMoreMention(WithAssertions(g, init), last, key);
    }
  }

  lemma {:induction false} MentionedHaveKinds(asserted: seq<Assertion>, key: NodeKey)
    ensures FirstKind(asserted, key).Some? <==> key in Mentioned(asserted)
  {
    if asserted != [] {
      MentionedHaveKinds(asserted[1..], key);
      assert forall a :: a in asserted <==> a == asserted[0] || a in asserted[1..];
      assert KindGiven(asserted[0], key).Some? <==> key == asserted[0].Subject() || key == asserted[0].Object();
    }
  }

  lemma WithoutOne(asserted: seq<Assertion>, other: seq<Assertion>) returns (k: nat)
    requires asserted != [] && multiset(asserted) == multiset(other)
    ensures k < |other| && other[k] == asserted[|asserted| - 1]
    ensures multiset(asserted[..|asserted| - 1]) == multiset(other[..k] + other[k + 1..])
  {
    var last := asserted[|asserted| - 1];
    assert last in multiset(other);
    k :| 0 <= k < |other| && other[k] == last;
    var init, rest := asserted[..|asserted| - 1], other[..k] + other[k + 1..];
    assert asserted == init + [last];
    assert other == other[..k] + [last] + other[k + 1..];
    assert multiset(init) == multiset(asserted) - multiset{last};
    assert multiset(rest) == multiset(other) - multiset{last};
  }

  lemma {:induction false} OccurrencesInMultiset(asserted: seq<Assertion>, other: seq<Assertion>, r: Relation)
    requires multiset(asserted) == multiset(other)
    ensures Occurrences(asserted, r) == Occurrences(other, r)
    decreases |asserted|
  {
    if asserted == [] {
      assert other == [] by { assert |multiset(other)| == 0; }
    } else {
      var k := WithoutOne(asserted, other);
      OccurrencesInMultiset(asserted[..|asserted| - 1], other[..k] + other[k + 1..], r);
      OccurrencesWithout(other, k, r);
    }
  }

  lemma {:induction false} OccurrencesWithout(asserted: seq<Assertion>, k: nat, r: Relation)
    requires k < |asserted|
    ensures Occurrences(asserted, r)
         == Occurrences(asserted[..k] + asserted[k + 1..], r) + if asserted[k].Rel() == r then 1 else 0
    decreases |asserted|
  {
    var last := |asserted| - 1;
    var rest := asserted[..k] + asserted[k + 1..];
    if k == last {
      assert rest == asserted[..last];
    } else {
      OccurrencesWithout(asserted[..last], k, r);
      assert rest[..|rest| - 1] == asserted[..last][..k] + asserted[..last][k + 1..];
    }
  }

  /** Neither the names nor the weights depend on the order in which triples arrive. */
  lemma OrderDoesNotMatter(g: Graph, asserted: seq<Assertion>, other: seq<Assertion>)
    requires multiset(asserted) == multiset(other)
    ensures WithAssertions(g, asserted).weights == WithAssertions(g, other).weights
    ensures WithAssertions(g, asserted).kinds.Keys == WithAssertions(g, other).kinds.Keys
  {
    var x, y := WithAssertions(g, asserted), WithAssertions(g, other);
    forall r ensures r in x.weights <==> r in y.weights
             ensures r in x.weights ==> x.weights[r] == y.weights[r]
    {
      WeightsAreCounts(g, asserted, r);
      WeightsAreCounts(g, other, r);
      OccurrencesInMultiset(asserted, other, r);
    }
    assert forall a :: a in asserted <==> a in multiset(asserted);
    assert forall a :: a in other <==> a in multiset(other);
    forall key ensures key in x.kinds <==> key in y.kinds {
      KindsAreFirstMentions(g, asserted, key);
      KindsAreFirstMentions(g, other, key);
      MentionedHaveKinds(asserted, key);
      MentionedHaveKinds(other, key);
    }
  }

  /** The kinds do: "User" first seen as an object stays a concept, first seen as a subject
      it is a person. */
  lemma OrderDecidesKind()
    ensures var bob := Assertion(0, "u", Triple("Bob", "IS_A", "User"));
      var likes := Assertion(0, "u", Triple("User", "LIKES", "Tea"));
      var none := Graph(map[], map[]);
      && WithAssertions(none, [bob, likes]).kinds[NodeKey(0, "u", "User")] == Concept
      && WithAssertions(none, [likes, bob]).kinds[NodeKey(0, "u", "User")] == Person
  {
    var bob := Assertion(0, "u", Triple("Bob", "IS_A", "User"));
    var likes := Assertion(0, "u", Triple("User", "LIKES", "Tea"));
    var none := Graph(map[], map[]);
    var user := NodeKey(0, "u", "User");
    assert Lower("User") == "user";
    KindsAreFirstMentions(none, [bob, likes], user);
    KindsAreFirstMentions(none, [likes, bob], user);
    assert FirstKind([bob, likes], user) == Some(Concept);
  }
}
