/** The chatbot's own knowledge base and a few questions put to it. The
    scorer stays a parameter: a scenario assumes which node the question
    resolves to and, for the "has" questions, which nutrient it asks about;
    one scenario fixes the scorer instead and holds for any graph. */
module Scenarios {
  import opened Wrappers
  import opened Text
  import opened Graphs
  import opened Matching
  import opened Answers
  import opened Chatbot

  /** Orange's edges: its kind, itself as its colour (reported once), then
      what it has. */
  lemma OrangeEdges(g: GraphState)
    requires g == KnowledgeBase
    ensures Incident(g, "orange")
         == [Edge("orange", "a fruit", "is"), Edge("orange", "orange", "is"),
             Edge("orange", "vitamin C and fiber", "has")]
  {
  }

  lemma BananaEdges(g: GraphState)
    requires g == KnowledgeBase
    ensures Incident(g, "banana")
         == [Edge("banana", "a fruit", "is"), Edge("banana", "yellow", "is"),
             Edge("banana", "potassium", "has")]
  {
    BananaEdgesIn(g.edges);
  }

  /** The same, on the edge list alone. */
  lemma BananaEdgesIn(es: seq<Edge>)
    requires es == KnowledgeBase.edges
    ensures IncidentIn(es, "banana")
         == [Edge("banana", "a fruit", "is"), Edge("banana", "yellow", "is"),
             Edge("banana", "potassium", "has")]
  {
  }

  lemma AppleEdges(g: GraphState)
    requires g == KnowledgeBase
    ensures Incident(g, "apple")
         == [Edge("apple", "a fruit", "is"), Edge("apple", "red or green", "is"),
             Edge("apple", "vitamin C", "has")]
  {
  }

  /** A value node is a node like any other: "a fruit" reaches the three
      fruits, seen from its side. */
  lemma KindEdges(g: GraphState)
    requires g == KnowledgeBase
    ensures Incident(g, "a fruit")
         == [Edge("a fruit", "apple", "is"), Edge("a fruit", "banana", "is"),
             Edge("a fruit", "orange", "is")]
  {
  }

  /** A question with one "has", at `i`, followed by a space and a word `w`
      without "h" or surrounding whitespace, asks about `w`. */
  lemma SpacedNutrient(q: string, i: nat, w: string)
    requires i + 3 <= |q| && q[i..i + 3] == HasKeyword && 'h' !in q[..i]
    requires q[i + 3..] == " " + w && 'h' !in w
    requires w != [] && !IsSpace(w[0]) && !IsSpace(w[|w| - 1])
    ensures Contains(q, HasKeyword) && Nutrient(q) == w
  {
    NoFirstCharBefore(q, HasKeyword, i);
    var rest := q[i + 3..];
    assert rest[..|rest|] == rest;
    NoFirstCharBefore(rest, HasKeyword, |rest|);
    NutrientAfterOnly(q, i);
    StripSpaced(w);
  }

  /** "does <fruit> has <w>", for a fruit name without "h" and a word `w`
      without "h" or surrounding whitespace, asks about `w`. */
  lemma AsksAbout(q: string, fruit: string, w: string)
    requires q == "does " + fruit + " has " + w && 'h' !in fruit && 'h' !in w
    requires w != [] && !IsSpace(w[0]) && !IsSpace(w[|w| - 1])
    ensures Contains(q, HasKeyword) && Nutrient(q) == w
  {
    var i := |fruit| + 6;
    assert q[..i] == "does " + fruit + " ";
    assert q[i..i + 3] == "has";
    assert q[i + 3..] == " " + w;
    SpacedNutrient(q, i, w);
  }

  /** "fiber" is inside the value "vitamin C and fiber" of orange's "has" edge. */
  lemma OrangeHasFiberEdge(rels: seq<Edge>)
    requires rels == [Edge("orange", "a fruit", "is"), Edge("orange", "orange", "is"),
                      Edge("orange", "vitamin C and fiber", "has")]
    ensures HasNutrient(rels, "fiber")
  {
    assert OccursAt(rels[2].v, "fiber", 14);
  }

  /** Asked whether orange has fiber (as in "does orange has fiber", see
      `AsksAbout`), the chatbot says yes: the test is a substring test on
      the stored value "vitamin C and fiber". */
  lemma OrangeHasFiber(g: GraphState, q: string, score: Scorer)
    requires g == KnowledgeBase && Contains(q, HasKeyword) && Nutrient(q) == "fiber"
    requires Resolve(g, q, score) == Some("orange")
    ensures Answer(g, q, score) == ContainsReply("orange", "fiber")
  {
    OrangeFacts(g);
    AnswerContains(g, q, score, "orange");
  }

  /** Orange has edges, and one of them gives it fiber. */
  lemma OrangeFacts(g: GraphState)
    requires g == KnowledgeBase
    ensures Incident(g, "orange") != [] && HasNutrient(Incident(g, "orange"), "fiber")
  {
    OrangeEdges(g);
    OrangeHasFiberEdge(Incident(g, "orange"));
  }

  /** Banana's only "has" value, "potassium", does not contain "vitamin C". */
  lemma BananaLacksVitaminC(rels: seq<Edge>)
    requires rels == [Edge("banana", "a fruit", "is"), Edge("banana", "yellow", "is"),
                      Edge("banana", "potassium", "has")]
    ensures !HasNutrient(rels, "vitamin C")
  {
    assert rels[2].v[0..9][0] == 'p';
  }

  /** Asked whether banana has vitamin C (as in "does banana has vitamin C",
      see `AsksAbout`), the chatbot says it is not aware of it. */
  lemma BananaVitaminC(g: GraphState, q: string, score: Scorer)
    requires g == KnowledgeBase && Contains(q, HasKeyword) && Nutrient(q) == "vitamin C"
    requires Resolve(g, q, score) == Some("banana")
    ensures Answer(g, q, score) == NotAwareReply("banana", "vitamin C")
  {
    BananaFacts(g);
    AnswerNotAware(g, q, score, "banana");
  }

  /** Banana has edges, and none of them gives it vitamin C. */
  lemma BananaFacts(g: GraphState)
    requires g == KnowledgeBase
    ensures Incident(g, "banana") != [] && !HasNutrient(Incident(g, "banana"), "vitamin C")
  {
    BananaEdges(g);
    BananaLacksVitaminC(Incident(g, "banana"));
  }

  /** "does apple have vitamin C" has no "has" in it: "have" is not "has". */
  lemma HaveIsNotHas(q: string)
    requires q == "does apple have vitamin C"
    ensures !Contains(q, HasKeyword)
  {
    assert q[..11] == "does apple ";
    assert q[11..14] == "hav";
    assert q[12..] == "ave vitamin C";
    NoFirstCharBefore(q, HasKeyword, 11);
    NoFirstCharBefore(q[12..], HasKeyword, 13);
  }

  /** None of the texts of apple's listing has a line break. */
  lemma AppleOneLine(rels: seq<Edge>)
    requires rels == [Edge("apple", "a fruit", "is"), Edge("apple", "red or green", "is"),
                      Edge("apple", "vitamin C", "has")]
    ensures OneLine("apple") && forall e :: e in rels ==> OneLine(e.relation) && OneLine(e.v)
  {
  }

  /** The listing of apple's edges, line by line. */
  lemma AppleLines(rels: seq<Edge>)
    requires rels == [Edge("apple", "a fruit", "is"), Edge("apple", "red or green", "is"),
                      Edge("apple", "vitamin C", "has")]
    ensures [InfoHeader("apple")] + Bullets("apple", rels)
         == ["Here's what I know about apple:", "- apple is a fruit",
             "- apple is red or green", "- apple has vitamin C"]
  {
    var b := Bullets("apple", rels);
    assert b[0] == "- apple is a fruit";
    assert b[1] == "- apple is red or green";
    assert b[2] == "- apple has vitamin C";
    assert InfoHeader("apple") == "Here's what I know about apple:";
  }

  /** Asked "does apple have vitamin C", the chatbot lists what it knows about
      apple, one line per edge, instead of answering yes. */
  lemma AppleHaveVitaminC(g: GraphState, q: string, score: Scorer)
    requires g == KnowledgeBase && q == "does apple have vitamin C"
    requires Resolve(g, q, score) == Some("apple")
    ensures Split(Answer(g, q, score), "\n")
         == ["Here's what I know about apple:", "- apple is a fruit",
             "- apple is red or green", "- apple has vitamin C"]
  {
    HaveIsNotHas(q);
    AppleEdges(g);
    AppleOneLine(Incident(g, "apple"));
    AppleLines(Incident(g, "apple"));
    AnswerInfo(g, q, score, "apple");
  }

  /** A scorer that rates every node 0 leaves every question not understood. */
  lemma NothingScores(g: GraphState, q: string)
    ensures Answer(g, q, (query, candidate) => 0) == NotUnderstood
  {
    AnswerNotUnderstood(g, q, (query, candidate) => 0);
  }
}
