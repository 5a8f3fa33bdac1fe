/** The `FruitChatbot` class: it builds its knowledge graph once and answers
    one question at a time. */
module Chatbot {
  import opened Wrappers
  import opened Text
  import opened Graphs
  import opened Matching
  import opened Answers

  const Fruits: seq<string> := ["apple", "banana", "orange"]

  /** The knowledge base as (subject, relation, value) triples, in order. */
  const Relationships: seq<(string, string, string)> := [
    ("apple", "is", "a fruit"),
    ("banana", "is", "a fruit"),
    ("orange", "is", "a fruit"),
    ("apple", "is", "red or green"),
    ("banana", "is", "yellow"),
    ("orange", "is", "orange"),
    ("apple", "has", "vitamin C"),
    ("banana", "has", "potassium"),
    ("orange", "has", "vitamin C and fiber")
  ]

  /** Each triple as an edge from its subject to its value, labelled with its relation. */
  function RelationshipEdges(rs: seq<(string, string, string)>): (es: seq<Edge>)
    ensures |es| == |rs|
    ensures forall k :: 0 <= k < |rs| ==> es[k] == Edge(rs[k].0, rs[k].2, rs[k].1)
  {
    seq(|rs|, k requires 0 <= k < |rs| => Edge(rs[k].0, rs[k].2, rs[k].1))
  }

  /** The graph the chatbot builds: the fruits, then every value in order of
      first appearance; "orange" is both a fruit and a colour, so it has an
      edge to itself. */
  const KnowledgeBase := GraphState(
    ["apple", "banana", "orange", "a fruit", "red or green", "yellow",
     "vitamin C", "potassium", "vitamin C and fiber"],
    [Edge("apple", "a fruit", "is"), Edge("banana", "a fruit", "is"),
     Edge("orange", "a fruit", "is"), Edge("apple", "red or green", "is"),
     Edge("banana", "yellow", "is"), Edge("orange", "orange", "is"),
     Edge("apple", "vitamin C", "has"), Edge("banana", "potassium", "has"),
     Edge("orange", "vitamin C and fiber", "has")])

  /** Adding the fruits and then the relationships gives exactly that graph. */
  lemma KnowledgeBaseBuilt(fruitGraph: GraphState, es: seq<Edge>)
    requires fruitGraph == AddNodes(GraphState([], []), Fruits)
    requires es == RelationshipEdges(Relationships)
    ensures AddEdges(fruitGraph, es) == KnowledgeBase
  {
    FruitNodes(fruitGraph);
    RelationshipsAsEdges(es);
    KnowledgeBaseStep1(fruitGraph, es);
  }

  /** Adding the three fruits to an empty graph lists them in order. */
  lemma FruitNodes(fruitGraph: GraphState)
    requires fruitGraph == AddNodes(GraphState([], []), Fruits)
    ensures fruitGraph == GraphState(["apple", "banana", "orange"], [])
  {
    AddNodesNew(GraphState([], []), Fruits);
  }

  /** The relationships, as edges, are the knowledge base's edges. */
  lemma RelationshipsAsEdges(es: seq<Edge>)
    requires es == RelationshipEdges(Relationships)
    ensures es == [Edge("apple", "a fruit", "is"), Edge("banana", "a fruit", "is"), Edge("orange", "a fruit", "is"), Edge("apple", "red or green", "is"), Edge("banana", "yellow", "is"), Edge("orange", "orange", "is"), Edge("apple", "vitamin C", "has"), Edge("banana", "potassium", "has"), Edge("orange", "vitamin C and fiber", "has")]
  {
  }

  /** Edges 1 to 9 complete the knowledge base; edge 1 brings a new value node. */
  lemma KnowledgeBaseStep1(g: GraphState, es: seq<Edge>)
    requires g == GraphState(["apple", "banana", "orange"], [])
    requires es == [Edge("apple", "a fruit", "is"), Edge("banana", "a fruit", "is"), Edge("orange", "a fruit", "is"), Edge("apple", "red or green", "is"), Edge("banana", "yellow", "is"), Edge("orange", "orange", "is"), Edge("apple", "vitamin C", "has"), Edge("banana", "potassium", "has"), Edge("orange", "vitamin C and fiber", "has")]
    ensures AddEdges(g, es) == KnowledgeBase
  {
    AddEdgeNewValue(g, "apple", "a fruit", "is");
    KnowledgeBaseStep2(AddEdge(g, "apple", "a fruit", "is"), es[1..]);
  }

  /** Edges 2 to 9 complete the knowledge base; edge 2 links two nodes already present. */
  lemma KnowledgeBaseStep2(g: GraphState, es: seq<Edge>)
    requires g == GraphState(["apple", "banana", "orange", "a fruit"], [Edge("apple", "a fruit", "is")])
    requires es == [Edge("banana", "a fruit", "is"), Edge("orange", "a fruit", "is"), Edge("apple", "red or green", "is"), Edge("banana", "yellow", "is"), Edge("orange", "orange", "is"), Edge("apple", "vitamin C", "has"), Edge("banana", "potassium", "has"), Edge("orange", "vitamin C and fiber", "has")]
    ensures AddEdges(g, es) == KnowledgeBase
  {
    AddEdgeNewPair(g, "banana", "a fruit", "is");
    KnowledgeBaseStep3(AddEdge(g, "banana", "a fruit", "is"), es[1..]);
  }

  /** Edges 3 to 9 complete the knowledge base; edge 3 links two nodes already present. */
  lemma KnowledgeBaseStep3(g: GraphState, es: seq<Edge>)
    requires g == GraphState(["apple", "banana", "orange", "a fruit"], [Edge("apple", "a fruit", "is"), Edge("banana", "a fruit", "is")])
    requires es == [Edge("orange", "a fruit", "is"), Edge("apple", "red or green", "is"), Edge("banana", "yellow", "is"), Edge("orange", "orange", "is"), Edge("apple", "vitamin C", "has"), Edge("banana", "potassium", "has"), Edge("orange", "vitamin C and fiber", "has")]
    ensures AddEdges(g, es) == KnowledgeBase
  {
    AddEdgeNewPair(g, "orange", "a fruit", "is");
    KnowledgeBaseStep4(AddEdge(g, "orange", "a fruit", "is"), es[1..]);
  }

  /** Edges 4 to 9 complete the knowledge base; edge 4 brings a new value node. */
  lemma KnowledgeBaseStep4(g: GraphState, es: seq<Edge>)
    requires g == GraphState(["apple", "banana", "orange", "a fruit"], [Edge("apple", "a fruit", "is"), Edge("banana", "a fruit", "is"), Edge("orange", "a fruit", "is")])
    requires es == [Edge("apple", "red or green", "is"), Edge("banana", "yellow", "is"), Edge("orange", "orange", "is"), Edge("apple", "vitamin C", "has"), Edge("banana", "potassium", "has"), Edge("orange", "vitamin C and fiber", "has")]
    ensures AddEdges(g, es) == KnowledgeBase
  {
    AddEdgeNewValue(g, "apple", "red or green", "is");
    KnowledgeBaseStep5(AddEdge(g, "apple", "red or green", "is"), es[1..]);
  }

  /** Edges 5 to 9 complete the knowledge base; edge 5 brings a new value node. */
  lemma KnowledgeBaseStep5(g: GraphState, es: seq<Edge>)
    requires g == GraphState(["apple", "banana", "orange", "a fruit", "red or green"], [Edge("apple", "a fruit", "is"), Edge("banana", "a fruit", "is"), Edge("orange", "a fruit", "is"), Edge("apple", "red or green", "is")])
    requires es == [Edge("banana", "yellow", "is"), Edge("orange", "orange", "is"), Edge("apple", "vitamin C", "has"), Edge("banana", "potassium", "has"), Edge("orange", "vitamin C and fiber", "has")]
    ensures AddEdges(g, es) == KnowledgeBase
  {
    AddEdgeNewValue(g, "banana", "yellow", "is");
    KnowledgeBaseStep6(AddEdge(g, "banana", "yellow", "is"), es[1..]);
  }

  /** Edges 6 to 9 complete the knowledge base; edge 6 links two nodes already present. */
  lemma KnowledgeBaseStep6(g: GraphState, es: seq<Edge>)
    requires g == GraphState(["apple", "banana", "orange", "a fruit", "red or green", "yellow"], [Edge("apple", "a fruit", "is"), Edge("banana", "a fruit", "is"), Edge("orange", "a fruit", "is"), Edge("apple", "red or green", "is"), Edge("banana", "yellow", "is")])
    requires es == [Edge("orange", "orange", "is"), Edge("apple", "vitamin C", "has"), Edge("banana", "potassium", "has"), Edge("orange", "vitamin C and fiber", "has")]
    ensures AddEdges(g, es) == KnowledgeBase
  {
    AddEdgeNewPair(g, "orange", "orange", "is");
    KnowledgeBaseStep7(AddEdge(g, "orange", "orange", "is"), es[1..]);
  }

  /** Edges 7 to 9 complete the knowledge base; edge 7 brings a new value node. */
  lemma KnowledgeBaseStep7(g: GraphState, es: seq<Edge>)
    requires g == GraphState(["apple", "banana", "orange", "a fruit", "red or green", "yellow"], [Edge("apple", "a fruit", "is"), Edge("banana", "a fruit", "is"), Edge("orange", "a fruit", "is"), Edge("apple", "red or green", "is"), Edge("banana", "yellow", "is"), Edge("orange", "orange", "is")])
    requires es == [Edge("apple", "vitamin C", "has"), Edge("banana", "potassium", "has"), Edge("orange", "vitamin C and fiber", "has")]
    ensures AddEdges(g, es) == KnowledgeBase
  {
    AddEdgeNewValue(g, "apple", "vitamin C", "has");
    KnowledgeBaseStep8(AddEdge(g, "apple", "vitamin C", "has"), es[1..]);
  }

  /** Edges 8 to 9 complete the knowledge base; edge 8 brings a new value node. */
  lemma KnowledgeBaseStep8(g: GraphState, es: seq<Edge>)
    requires g == GraphState(["apple", "banana", "orange", "a fruit", "red or green", "yellow", "vitamin C"], [Edge("apple", "a fruit", "is"), Edge("banana", "a fruit", "is"), Edge("orange", "a fruit", "is"), Edge("apple", "red or green", "is"), Edge("banana", "yellow", "is"), Edge("orange", "orange", "is"), Edge("apple", "vitamin C", "has")])
    requires es == [Edge("banana", "potassium", "has"), Edge("orange", "vitamin C and fiber", "has")]
    ensures AddEdges(g, es) == KnowledgeBase
  {
    AddEdgeNewValue(g, "banana", "potassium", "has");
    KnowledgeBaseStep9(AddEdge(g, "banana", "potassium", "has"), es[1..]);
  }

  /** Edges 9 to 9 complete the knowledge base; edge 9 brings a new value node. */
  lemma KnowledgeBaseStep9(g: GraphState, es: seq<Edge>)
    requires g == GraphState(["apple", "banana", "orange", "a fruit", "red or green", "yellow", "vitamin C", "potassium"], [Edge("apple", "a fruit", "is"), Edge("banana", "a fruit", "is"), Edge("orange", "a fruit", "is"), Edge("apple", "red or green", "is"), Edge("banana", "yellow", "is"), Edge("orange", "orange", "is"), Edge("apple", "vitamin C", "has"), Edge("banana", "potassium", "has")])
    requires es == [Edge("orange", "vitamin C and fiber", "has")]
    ensures AddEdges(g, es) == KnowledgeBase
  {
    AddEdgeNewValue(g, "orange", "vitamin C and fiber", "has");
  }

  /** The graph the chatbot builds is simple. */
  lemma KnowledgeBaseValid(g: GraphState)
    requires g == KnowledgeBase
    ensures Valid(g)
  {
    var empty := GraphState([], []);
    var fruitGraph := AddNodes(empty, Fruits);
    var es := RelationshipEdges(Relationships);
    KnowledgeBaseBuilt(fruitGraph, es);
    assert Valid(empty);
    AddEdgesValid(fruitGraph, es);
  }

  class FruitChatbot {
    const knowledgeGraph: Graph

    constructor ()
      ensures fresh(knowledgeGraph) && knowledgeGraph.State() == KnowledgeBase
    {
      var graph := FruitChatbot.BuildKnowledgeGraph();
      knowledgeGraph := graph;
    }

    /** `build_knowledge_graph`: a fresh graph holding the knowledge base. */
    static method BuildKnowledgeGraph() returns (graph: Graph)
      ensures fresh(graph) && graph.State() == KnowledgeBase
    {
      graph := new Graph();
      graph.AddNodesFrom(Fruits);
      var fruitGraph := graph.State();
      var es := RelationshipEdges(Relationships);
      graph.AddEdgesFrom(es);
      KnowledgeBaseBuilt(fruitGraph, es);
    }

    /** `fuzzy_match`: the first candidate with the highest score, provided
        that score is above 0. */
    method FuzzyMatch(query: string, entities: seq<string>, score: Scorer) returns (bestMatch: Option<string>)
      ensures bestMatch == BestMatch(query, entities, score)
    {
      bestMatch := None;
      var maxScore := 0;
      for i := 0 to |entities|
        invariant bestMatch == BestMatch(query, entities[..i], score)
        invariant maxScore == ScoreOf(query, bestMatch, score)
      {
        assert entities[..i + 1][..i] == entities[..i];
        var s := score(query, entities[i]);
        if s > maxScore {
          maxScore := s;
          bestMatch := Some(entities[i]);
        }
      }
      assert entities[..|entities|] == entities;
    }

    /** `answer_question`: resolve the fruit among the graph's nodes, then
        reply from its edges; the listing is built line by line. */
    method AnswerQuestion(question: string, score: Scorer) returns (response: string)
      ensures response == Answer(knowledgeGraph.State(), question, score)
    {
      var fruit := FuzzyMatch(question, knowledgeGraph.nodes, score);
      if fruit.Some? && fruit.value != "" {
        var name := fruit.value;
        var relationships := knowledgeGraph.Edges(name);
        ghost var g := knowledgeGraph.State();
        assert Resolve(g, question, score) == Some(name);
        if relationships != [] {
          if Contains(question, HasKeyword) {
            var nutrient := Strip(Split(question, HasKeyword)[1]);
            var nutrientRelationships := NutrientEdges(relationships, nutrient);
            if nutrientRelationships != [] {
              response := ContainsReply(name, nutrient);
            } else {
              response := NotAwareReply(name, nutrient);
            }
          } else {
            response := InfoHeader(name);
            for i := 0 to |relationships|
              invariant response == InfoHeader(name) + InfoLines(name, relationships[..i])
            {
              InfoLinesStep(name, relationships, i);
              var relationship := relationships[i];
              response := response + "\n- " + name + " " + relationship.relation + " " + relationship.v;
            }
            assert relationships[..|relationships|] == relationships;
            assert Resolve(g, question, score) == Some(name);
          }
        } else {
          response := NoInformation(name);
        }
      } else {
        response := NotUnderstood;
      }
    }
  }
}
