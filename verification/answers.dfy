/** `answer_question` as a function of the knowledge graph, the question and
    the scorer: resolve the fruit, look at its edges, then either test the
    nutrient after "has" or list everything known about the fruit. */
module Answers {
  import opened Wrappers
  import opened Text
  import opened Graphs
  import opened Matching

  /** The keyword that selects the nutrient branch, matched as a substring. */
  const HasKeyword := "has"

  const NotUnderstood := "I'm sorry, I couldn't understand " + "your query or find a matching fruit."

  function NoInformation(fruit: string): string
  {
    "I'm sorry, I don't have information about " + fruit + "."
  }

  function ContainsReply(fruit: string, nutrient: string): string
  {
    "Yes, " + fruit + " contains " + nutrient + "."
  }

  function NotAwareReply(fruit: string, nutrient: string): string
  {
    "No, I'm not aware of " + fruit + " containing " + nutrient + "."
  }

  function InfoHeader(fruit: string): string
  {
    "Here's what I know about " + fruit + ":"
  }

  /** One line of the listing, for the edge `e` oriented from `fruit`. */
  function Bullet(fruit: string, e: Edge): string
  {
    "- " + fruit + " " + e.relation + " " + e.v
  }

  /** The text the listing loop appends: a newline and a bullet per edge,
      so it is empty exactly when there are no edges and otherwise starts
      with a line break. */
  function InfoLines(fruit: string, rels: seq<Edge>): (r: string)
    ensures r == [] <==> rels == []
    ensures rels != [] ==> r[0] == '\n'
    decreases |rels|
  {
    if rels == [] then ""
    else InfoLines(fruit, rels[..|rels| - 1]) + "\n" + Bullet(fruit, rels[|rels| - 1])
  }

  /** One more edge adds its line to the listing. */
  lemma InfoLinesStep(fruit: string, rels: seq<Edge>, i: nat)
    requires i < |rels|
    ensures InfoLines(fruit, rels[..i + 1])
         == InfoLines(fruit, rels[..i]) + "\n- " + fruit + " " + rels[i].relation + " " + rels[i].v
  {
    assert rels[..i + 1][..i] == rels[..i];
    var prefix := InfoLines(fruit, rels[..i]);
    assert prefix + "\n" + Bullet(fruit, rels[i])
        == prefix + "\n- " + fruit + " " + rels[i].relation + " " + rels[i].v;
  }

  function Bullets(fruit: string, rels: seq<Edge>): seq<string>
  {
    seq(|rels|, i requires 0 <= i < |rels| => Bullet(fruit, rels[i]))
  }

  /** `fuzzy_match(question, nodes())` read through `if fruit:`, which treats
      the empty string like `None`. */
  function Resolve(g: GraphState, question: string, score: Scorer): (r: Option<string>)
    ensures r.Some? ==> r.value != "" && r.value in g.nodes && score(question, r.value) > 0
  {
    match BestMatch(question, g.nodes, score)
    case None => None
    case Some(fruit) => if fruit == "" then None else Some(fruit)
  }

  /** `question.split("has")[1].strip()`: the nutrient neither starts nor
      ends with whitespace, and never contains "has" itself. */
  function Nutrient(question: string): (r: string)
    requires Contains(question, HasKeyword)
    ensures r == [] || (!IsSpace(r[0]) && !IsSpace(r[|r| - 1]))
    ensures !Contains(r, HasKeyword)
  {
    SplitPiecesClean(question, HasKeyword);
    StripNoOccurrence(Split(question, HasKeyword)[1], HasKeyword);
    Strip(Split(question, HasKeyword)[1])
  }

  /** The comprehension over the fruit's edges: those labelled "has" whose
      neighbour contains the nutrient, in order. */
  function NutrientEdges(rels: seq<Edge>, nutrient: string): (r: seq<Edge>)
    ensures forall e :: e in r <==> e in rels && e.relation == HasKeyword && Contains(e.v, nutrient)
    decreases |rels|
  {
    if rels == [] then []
    else
      var rest := NutrientEdges(rels[1..], nutrient);
      assert forall e :: e in rels <==> e == rels[0] || e in rels[1..];
      if rels[0].relation == HasKeyword && Contains(rels[0].v, nutrient) then [rels[0]] + rest else rest
  }

  /** The reply of `answer_question(question)`: "couldn't understand" when
      no fruit resolves, and otherwise a reply that names the fruit. */
  function Answer(g: GraphState, question: string, score: Scorer): (r: string)
    ensures Resolve(g, question, score).None? ==> r == NotUnderstood
    ensures Resolve(g, question, score).Some? ==> Contains(r, Resolve(g, question, score).value)
  {
    match Resolve(g, question, score)
    case None => NotUnderstood
    case Some(fruit) =>
      var rels := Incident(g, fruit);
      if rels == [] then
        RepliesName(fruit, "", "");
        NoInformation(fruit)
      else if Contains(question, HasKeyword) then
        var nutrient := Nutrient(question);
        if NutrientEdges(rels, nutrient) != [] then
          RepliesName(fruit, nutrient, "");
          ContainsReply(fruit, nutrient)
        else
          RepliesName(fruit, nutrient, "");
          NotAwareReply(fruit, nutrient)
      else
        RepliesName(fruit, "", InfoLines(fruit, rels));
        InfoHeader(fruit) + InfoLines(fruit, rels)
  }

  /** Every reply about a fruit names it. */
  lemma RepliesName(fruit: string, nutrient: string, lines: string)
    ensures Contains(NoInformation(fruit), fruit)
    ensures Contains(ContainsReply(fruit, nutrient), fruit)
    ensures Contains(NotAwareReply(fruit, nutrient), fruit)
    ensures Contains(InfoHeader(fruit) + lines, fruit)
  {
    var pre := "I'm sorry, I don't have information about ";
    assert NoInformation(fruit) == pre + fruit + ".";
    NamesWord(pre, fruit, ".");
    pre := "Yes, ";
    var post := " contains " + nutrient + ".";
    assert ContainsReply(fruit, nutrient) == pre + fruit + post;
    NamesWord(pre, fruit, post);
    pre := "No, I'm not aware of ";
    post := " containing " + nutrient + ".";
    assert NotAwareReply(fruit, nutrient) == pre + fruit + post;
    NamesWord(pre, fruit, post);
    pre := "Here's what I know about ";
    post := ":" + lines;
    assert InfoHeader(fruit) + lines == pre + fruit + post;
    NamesWord(pre, fruit, post);
  }

  /** A text made of a prefix, a word and a suffix contains the word. */
  lemma NamesWord(pre: string, w: string, post: string)
    ensures Contains(pre + w + post, w)
  {
    assert (pre + w + post)[|pre|..|pre| + |w|] == w;
    assert OccursAt(pre + w + post, w, |pre|);
  }

  /** Some edge of `rels` is labelled "has" and its neighbour contains `nutrient`. */
  predicate HasNutrient(rels: seq<Edge>, nutrient: string)
  {
    exists k :: 0 <= k < |rels| && rels[k].relation == HasKeyword && Contains(rels[k].v, nutrient)
  }

  /** The nutrient is the stripped text between the first "has" (at `i`) and
      the next "has" after it (at `j`), or the end of the question (`j` is
      then its length). */
  lemma NutrientBetween(question: string) returns (i: nat, j: nat)
    requires Contains(question, HasKeyword)
    ensures OccursAt(question, HasKeyword, i)
    ensures forall k :: 0 <= k < i ==> !OccursAt(question, HasKeyword, k)
    ensures i + 3 <= j <= |question| && Nutrient(question) == Strip(question[i + 3..j])
    ensures !Contains(question[i + 3..j], HasKeyword)
    ensures j == |question| || OccursAt(question, HasKeyword, j)
  {
    i, j := SecondPiece(question, HasKeyword);
  }

  /** When "has" occurs only once, at `i`, the nutrient is the stripped rest
      of the question after it. */
  lemma NutrientAfterOnly(question: string, i: nat)
    requires OccursAt(question, HasKeyword, i)
    requires forall k :: 0 <= k < i ==> !OccursAt(question, HasKeyword, k)
    requires !Contains(question[i + 3..], HasKeyword)
    ensures Contains(question, HasKeyword) && Nutrient(question) == Strip(question[i + 3..])
  {
    SecondPieceOnly(question, HasKeyword, i);
  }

  /** The five kinds of reply are told apart by their first or fourteenth
      character. */
  lemma RepliesDiffer(fruit: string, other: string, nutrient: string, rels: seq<Edge>)
    ensures NotUnderstood[0] == 'I' && NotUnderstood[13] == 'c'
    ensures NoInformation(fruit)[0] == 'I' && NoInformation(fruit)[13] == 'd'
    ensures ContainsReply(other, nutrient)[0] == 'Y'
    ensures NotAwareReply(other, nutrient)[0] == 'N'
    ensures (InfoHeader(other) + InfoLines(other, rels))[0] == 'H'
  {
    var notUnderstood := "I'm sorry, I couldn't understand ";
    assert |notUnderstood| == 33 && notUnderstood[0] == 'I' && notUnderstood[13] == 'c';
    var noInformation := "I'm sorry, I don't have information about ";
    assert |noInformation| == 42 && noInformation[0] == 'I' && noInformation[13] == 'd';
  }

  /** The "couldn't understand" reply comes exactly when no node scores above
      0 or the best node is the empty string. */
  lemma AnswerNotUnderstood(g: GraphState, question: string, score: Scorer)
    ensures Answer(g, question, score) == NotUnderstood
        <==> (forall k :: 0 <= k < |g.nodes| ==> score(question, g.nodes[k]) == 0)
             || BestMatch(question, g.nodes, score) == Some("")
  {
    BestMatchNone(question, g.nodes, score);
    match Resolve(g, question, score)
    case None =>
    case Some(fruit) =>
      var rels := Incident(g, fruit);
      RepliesDiffer(fruit, fruit, if Contains(question, HasKeyword) then Nutrient(question) else "", rels);
  }

  /** With a resolved fruit, the "no information" reply comes exactly when
      the fruit has no edges. */
  lemma AnswerNoInformation(g: GraphState, question: string, score: Scorer, fruit: string)
    requires Resolve(g, question, score) == Some(fruit)
    ensures Answer(g, question, score) == NoInformation(fruit) <==> Incident(g, fruit) == []
  {
    RepliesDiffer(fruit, fruit, if Contains(question, HasKeyword) then Nutrient(question) else "", Incident(g, fruit));
  }

  /** With a resolved fruit and "has" in the question, the reply is "Yes"
      (echoing the asked nutrient) exactly when some "has" edge of the fruit
      leads to a value containing the nutrient. */
  lemma AnswerContains(g: GraphState, question: string, score: Scorer, fruit: string)
    requires Resolve(g, question, score) == Some(fruit)
    requires Contains(question, HasKeyword)
    ensures Answer(g, question, score) == ContainsReply(fruit, Nutrient(question))
        <==> HasNutrient(Incident(g, fruit), Nutrient(question))
  {
    var rels := Incident(g, fruit);
    var nutrient := Nutrient(question);
    RepliesDiffer(fruit, fruit, nutrient, rels);
    var matching := NutrientEdges(rels, nutrient);
    if matching != [] {
      assert matching[0] in rels;
      var k :| 0 <= k < |rels| && rels[k] == matching[0];
      assert HasNutrient(rels, nutrient);
    }
    if HasNutrient(rels, nutrient) {
      var k :| 0 <= k < |rels| && rels[k].relation == HasKeyword && Contains(rels[k].v, nutrient);
      assert rels[k] in matching;
    }
  }

  /** Otherwise the reply is the negative one, naming only the fruit and the
      asked nutrient, never a stored value. */
  lemma AnswerNotAware(g: GraphState, question: string, score: Scorer, fruit: string)
    requires Resolve(g, question, score) == Some(fruit)
    requires Contains(question, HasKeyword)
    requires Incident(g, fruit) != []
    ensures Answer(g, question, score) == NotAwareReply(fruit, Nutrient(question))
        <==> !HasNutrient(Incident(g, fruit), Nutrient(question))
  {
    AnswerContains(g, question, score, fruit);
    RepliesDiffer(fruit, fruit, Nutrient(question), Incident(g, fruit));
  }

  /** A question with only whitespace between its first "has" and the next
      one or the end asks for the empty nutrient, which every value contains: the reply is "Yes" whenever the fruit has a "has" edge. */
  lemma AnswerEmptyNutrient(g: GraphState, question: string, score: Scorer, fruit: string)
    requires Resolve(g, question, score) == Some(fruit)
    requires Contains(question, HasKeyword) && Nutrient(question) == ""
    ensures Answer(g, question, score) == ContainsReply(fruit, "")
        <==> exists k :: 0 <= k < |Incident(g, fruit)| && Incident(g, fruit)[k].relation == HasKeyword
  {
    var rels := Incident(g, fruit);
    AnswerContains(g, question, score, fruit);
    forall k | 0 <= k < |rels| ensures Contains(rels[k].v, "") {
      assert OccursAt(rels[k].v, "", 0);
    }
  }

  /** The listing loop's text is the header and the bullets joined by newlines. */
  lemma {:induction false} InfoLinesJoin(fruit: string, rels: seq<Edge>)
    ensures InfoHeader(fruit) + InfoLines(fruit, rels) == Join("\n", [InfoHeader(fruit)] + Bullets(fruit, rels))
    decreases |rels|
  {
    if rels != [] {
      var init := rels[..|rels| - 1];
      InfoLinesJoin(fruit, init);
      assert Bullets(fruit, rels) == Bullets(fruit, init) + [Bullet(fruit, rels[|rels| - 1])];
      JoinSnoc("\n", [InfoHeader(fruit)] + Bullets(fruit, init), Bullet(fruit, rels[|rels| - 1]));
      assert [InfoHeader(fruit)] + Bullets(fruit, rels)
          == [InfoHeader(fruit)] + Bullets(fruit, init) + [Bullet(fruit, rels[|rels| - 1])];
    }
  }

  /** `s` has no line break. */
  predicate OneLine(s: string)
  {
    '\n' !in s
  }

  /** With a resolved fruit that has edges and no "has" in the question, the
      reply is the header followed by one line "- fruit relation neighbour"
      per edge, in edge order; when none of the texts has a line break,
      splitting the reply into lines gives back exactly those lines. */
  lemma AnswerInfo(g: GraphState, question: string, score: Scorer, fruit: string)
    requires Resolve(g, question, score) == Some(fruit)
    requires !Contains(question, HasKeyword) && Incident(g, fruit) != []
    ensures Answer(g, question, score) == Join("\n", [InfoHeader(fruit)] + Bullets(fruit, Incident(g, fruit)))
    ensures OneLine(fruit) && (forall e :: e in Incident(g, fruit) ==> OneLine(e.relation) && OneLine(e.v))
        ==> Split(Answer(g, question, score), "\n") == [InfoHeader(fruit)] + Bullets(fruit, Incident(g, fruit))
  {
    var rels := Incident(g, fruit);
    InfoLinesJoin(fruit, rels);
    assert Answer(g, question, score) == InfoHeader(fruit) + InfoLines(fruit, rels);
    if OneLine(fruit) && (forall e :: e in rels ==> OneLine(e.relation) && OneLine(e.v)) {
      ListingSplits(fruit, rels);
    }
  }

  /** The listing, joined with line breaks, splits back into its lines when
      none of its texts has a line break. */
  lemma ListingSplits(fruit: string, rels: seq<Edge>)
    requires OneLine(fruit) && forall e :: e in rels ==> OneLine(e.relation) && OneLine(e.v)
    ensures Split(Join("\n", [InfoHeader(fruit)] + Bullets(fruit, rels)), "\n")
         == [InfoHeader(fruit)] + Bullets(fruit, rels)
  {
    var lines := [InfoHeader(fruit)] + Bullets(fruit, rels);
    forall k | 0 <= k < |lines| ensures '\n' !in lines[k] {
      if k > 0 {
        var e := rels[k - 1];
        assert e in rels;
        assert lines[k] == Bullet(fruit, e);
        BulletOneLine(fruit, e);
      }
    }
    JoinSplitChar('\n', lines);
  }

  /** A bullet built from texts without line breaks has none. */
  lemma BulletOneLine(fruit: string, e: Edge)
    requires OneLine(fruit) && OneLine(e.relation) && OneLine(e.v)
    ensures OneLine(Bullet(fruit, e))
  {
    assert Bullet(fruit, e) == "- " + fruit + " " + e.relation + " " + e.v;
  }
}
