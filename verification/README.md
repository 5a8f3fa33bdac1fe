# Fruit chatbot knowledge graph, modelled in Dafny

This project models the core of the `FruitChatbot` class in `chatbot.py`:

- building the knowledge graph: three fruits, then nine
  (subject, relation, value) facts added as labelled edges of an undirected
  simple graph;
- `fuzzy_match`, which picks the graph node that a similarity scorer rates
  highest against the question;
- `answer_question`, which resolves the fruit, looks at its edges and then
  does one of two things. If the question contains "has", it answers yes or
  no about the nutrient named after "has". Otherwise it lists every edge of
  the fruit.

Modules, one per concern of the source:

- `Wrappers`: `Option`.
- `Text`: Python's `in`, `str.split`, `"\n".join` and `str.strip`, as
  functions on `seq<char>`, with their laws.
- `Graphs`: the part of `networkx.Graph` the chatbot uses. A graph is its
  node list in insertion order and its edge list. There is one edge per
  unordered pair, and each edge carries a `relation`. Adding an edge between
  two nodes that already have one relabels that edge in place, at its
  original position. `edges(n, data=True)` reports the edges at `n` in that
  order, each seen from `n`, and a self-loop once. The class `Graph` holds
  this state as fields, which `AddNodesFrom` and `AddEdgesFrom` update in
  loops.
- `Matching`: a reference definition of `fuzzy_match` (`BestMatch`) and
  its laws. The scorer `fuzz.partial_ratio` is a parameter: any total function
  into 0..100.
- `Answers`: `answer_question` as a pure function `Answer` of the graph, the
  question and the scorer, with one lemma per reply.
- `Chatbot`: the knowledge base as data, and the class `FruitChatbot`. Its
  methods `BuildKnowledgeGraph`, `FuzzyMatch` and `AnswerQuestion` follow
  the source step by step, loops included. Each is proved equal to its
  reference function.
- `Scenarios`: questions put to the real knowledge base. The scorer is left
  open: a scenario assumes which node the question resolves to and, for the
  "has" questions (`OrangeHasFiber`, `BananaVitaminC`), that the question
  contains "has" and which nutrient it asks about. `NothingScores` fixes the
  scorer instead and holds for any graph.

Behaviour of `chatbot.py` worth noting:

- The resolver returns no match when every node scores 0, and not only when
  there are no candidates. A single candidate therefore resolves only when
  it scores above 0 (`Matching.BestMatchSingle`, `Matching.BestMatchNone`).
- The only keyword looked for is the substring "has". "does apple have
  vitamin C" contains no "has", so it gets the listing of apple's edges
  (`Scenarios.AppleHaveVitaminC`).
- The candidates for resolution are all graph nodes, values included. A
  question can therefore resolve to "a fruit" or "yellow", and is then
  answered from that node's side (`Scenarios.KindEdges`).
- A fact added twice does not accumulate: the simple graph keeps one edge
  per pair, labelled by the last fact (`Graphs.AddEdgesRelation`).

## Model

| member | source | states |
|---|---|---|
| `Text.Contains` | chatbot.py:50-53 | Python's `in` on strings (lines 50 and 53): the empty pattern always occurs, and an occurring pattern is no longer than the text. |
| `Text.Find` | chatbot.py:50 | No position is found exactly when the pattern does not occur; a found position is an occurrence with none before it. |
| `Text.Split` | chatbot.py:51 | There is always at least one piece, and two or more exactly when the separator occurs. |
| `Text.SplitJoin` | chatbot.py:51 | Joining the pieces with the separator gives back the text. |
| `Text.SplitPiecesClean` | chatbot.py:51 | No piece contains the separator. |
| `Text.SecondPiece` | chatbot.py:51 | Piece 1 is the text between the first occurrence and the next occurrence, or the end of the text, and holds no occurrence. |
| `Text.SecondPieceOnly` | chatbot.py:51 | When the separator occurs once, piece 1 is everything after it. |
| `Text.Strip` | chatbot.py:51 | The result neither starts nor ends with whitespace. |
| `Text.StripTrims` | chatbot.py:51 | Stripping cuts only whitespace, and only from the two ends. |
| `Text.StripIdempotent` | chatbot.py:51 | Stripping twice is stripping once. |
| `Graphs.AddNodes` | chatbot.py:13 | Every given node is present afterwards; the old nodes keep their order, no other node appears, edges are untouched, and simplicity is kept. |
| `Graphs.AddNodesNew` | chatbot.py:12-13 | Distinct new nodes are appended in the given order. |
| `Graphs.AddEdge` | chatbot.py:27 | The endpoints are added as nodes; at most one edge is added; no existing edge changes its endpoints or position. |
| `Graphs.AddEdgeRelation` | chatbot.py:27 | Afterwards the pair carries the new relation, and every other pair keeps its relation. |
| `Graphs.AddEdgeValid` | chatbot.py:27 | Adding an edge keeps the graph simple: distinct nodes, endpoints present, one edge per pair. |
| `Graphs.AddEdges` | chatbot.py:27 | `add_edges_from` applies `AddEdge` to each edge in order: old nodes keep their order, every endpoint given is a node afterwards, at most one edge per element is added, and no stored edge changes its endpoints or position. Its laws are `AddEdgesValid`, `AddEdgesRelation` and `AddEdgesConcat`. |
| `Graphs.AddEdgesValid` | chatbot.py:27 | Adding a batch of edges keeps the graph simple. |
| `Graphs.AddEdgesRelation` | chatbot.py:27 | After a batch, each pair carries the relation of the last edge given for it, or its old relation if none was given. |
| `Graphs.AddEdgesConcat` | chatbot.py:27 | Adding two batches one after the other is adding their concatenation. |
| `Graphs.IncidentIn` | chatbot.py:47 | Every reported edge starts at the asked node, and no more edges are reported than are stored. |
| `Graphs.IncidentInConcat` | chatbot.py:47 | The edges at `n` of two edge lists in turn are those of the first followed by those of the second, so the report keeps the order of the edge list. |
| `Graphs.IncidentInSingle` | chatbot.py:47 | A single edge is reported once, seen from `n`, exactly when it touches `n`; a self-loop at `n` is reported once. |
| `Graphs.Incident` | chatbot.py:47 | `edges(n, data=True)`: no more edges than are stored, and an edge is reported at `n` exactly when it is a stored edge touching `n`, seen from `n`'s side. |
| `Graphs.Graph.constructor` | chatbot.py:10 | A new graph is empty. |
| `Graphs.Graph.AddNodesFrom` | chatbot.py:13 | The loop leaves the graph equal to `AddNodes` of the old graph. |
| `Graphs.Graph.AddEdgesFrom` | chatbot.py:27 | The loop leaves the graph equal to `AddEdges` of the old graph. |
| `Graphs.Graph.AddEdgeTo` | chatbot.py:27 | One `add_edge` step of `add_edges_from` on the object's fields leaves the graph equal to `AddEdge` of the old graph. |
| `Graphs.Graph.Edges` | chatbot.py:47 | The same as `Graphs.Incident`, read from the object's fields: an edge is reported exactly when a stored edge touches `n`, seen from `n`. |
| `Matching.BestMatch` | chatbot.py:31-41 | A match is one of the candidates, and it scores above 0. |
| `Matching.BestMatchNone` | chatbot.py:32-41 | There is no match exactly when every candidate scores 0, in particular when there are none. |
| `Matching.BestMatchSingle` | chatbot.py:33-39 | A single candidate is the match exactly when it scores above 0. |
| `Matching.BestMatchIsFirstBest` | chatbot.py:35-39 | A match scores at least as high as every candidate and strictly higher than every earlier one. |
| `Matching.FirstBestIsMatch` | chatbot.py:35-39 | Conversely, the first highest-scoring candidate is the match when it scores above 0. |
| `Matching.InsertLowerScoring` | chatbot.py:35-39 | Inserting a candidate that scores lower than the match, at any position, leaves the match unchanged. |
| `Answers.Resolve` | chatbot.py:44-46 | A resolved fruit is a non-empty node name that scores above 0. |
| `Answers.Nutrient` | chatbot.py:51 | The nutrient asked about neither starts nor ends with whitespace and never contains "has". |
| `Answers.NutrientEdges` | chatbot.py:52-53 | An edge is kept exactly when it is one of the fruit's edges, its relation is "has", and its neighbour contains the nutrient. |
| `Answers.NutrientBetween` | chatbot.py:51 | The nutrient is the stripped text between the first "has" and the next "has", or the end of the question. |
| `Answers.NutrientAfterOnly` | chatbot.py:51 | With a single "has", the nutrient is the stripped rest of the question. |
| `Answers.RepliesDiffer` | chatbot.py:55-66 | The five kinds of reply are told apart by their first or fourteenth character. |
| `Answers.Answer` | chatbot.py:43-66 | When no node resolves, the reply is "couldn't understand"; otherwise every reply names the resolved fruit. |
| `Answers.AnswerNotUnderstood` | chatbot.py:44-66 | The reply is "couldn't understand" exactly when every node scores 0 or the best node is the empty string. |
| `Answers.AnswerNoInformation` | chatbot.py:47-64 | For a resolved fruit, the reply is "no information" exactly when the fruit has no edges. |
| `Answers.AnswerContains` | chatbot.py:50-55 | With "has" in the question, the reply is "Yes, … contains …" exactly when some "has" edge of the fruit leads to a value containing the nutrient. |
| `Answers.AnswerNotAware` | chatbot.py:50-57 | Otherwise, for a fruit with edges, the reply is "not aware", naming only the fruit and the nutrient asked. |
| `Answers.AnswerEmptyNutrient` | chatbot.py:50-55 | An empty nutrient (only whitespace between the first "has" and the next one or the end) gets "Yes" exactly when the fruit has any "has" edge. |
| `Answers.InfoLines` | chatbot.py:59-61 | The text the listing loop appends is empty exactly when there are no edges, and otherwise starts with a line break. |
| `Answers.InfoLinesJoin` | chatbot.py:59-61 | The text built by the `+=` loop is the header and one bullet per edge, joined by newlines. |
| `Answers.AnswerInfo` | chatbot.py:58-62 | Without "has", the reply is the header plus one "- fruit relation neighbour" line per edge, in edge order. If no text has a line break, splitting the reply into lines gives back exactly those lines. |
| `Chatbot.KnowledgeBaseBuilt` | chatbot.py:9-29 | Adding the fruits and then the nine facts gives exactly the knowledge base: nine nodes and nine edges, one of them the self-loop at "orange". |
| `Chatbot.KnowledgeBaseValid` | chatbot.py:9-29 | The built graph is simple. |
| `Chatbot.FruitChatbot.constructor` | chatbot.py:6-7 | A new chatbot holds a fresh graph equal to the knowledge base. |
| `Chatbot.FruitChatbot.BuildKnowledgeGraph` | chatbot.py:9-29 | The returned graph is fresh and equal to the knowledge base. |
| `Chatbot.FruitChatbot.FuzzyMatch` | chatbot.py:31-41 | The loop returns `BestMatch`: the first candidate with the highest score, provided that score is above 0. |
| `Chatbot.FruitChatbot.AnswerQuestion` | chatbot.py:43-66 | The method, including its `+=` listing loop, returns `Answer` of the chatbot's graph. |
| `Scenarios.OrangeEdges` | chatbot.py:22 | Orange's edges are "is a fruit", "is orange" (the self-loop, reported once) and "has vitamin C and fiber", in that order. |
| `Scenarios.KindEdges` | chatbot.py:17-19 | The value node "a fruit" has the three fruits as neighbours, seen from its side. |
| `Scenarios.AsksAbout` | chatbot.py:51 | A question "does <fruit> has <w>", with no "h" in the fruit or in `w`, asks about `w`: so "does orange has fiber" asks about "fiber" and "does banana has vitamin C" about "vitamin C". |
| `Scenarios.OrangeHasFiber` | chatbot.py:50-55 | Any question with "has" that asks about "fiber" and resolves to orange gets "Yes, orange contains fiber.": the nutrient test is a substring test on the stored value "vitamin C and fiber". |
| `Scenarios.BananaVitaminC` | chatbot.py:50-57 | Any question with "has" that asks about "vitamin C" and resolves to banana gets "No, I'm not aware of banana containing vitamin C." |
| `Scenarios.AppleHaveVitaminC` | chatbot.py:58-62 | "does apple have vitamin C", resolved to apple, gets the four-line listing of apple's edges. |
| `Scenarios.NothingScores` | chatbot.py:44-66 | With a scorer that rates every node 0, every question gets "couldn't understand". |

## Left out

- `chat` (chatbot.py:68-80): the input/print loop, the "exit" command and the exception handler are console I/O around `answer_question`.
- The module driver (chatbot.py:83-84) only constructs the chatbot and starts `chat`.
- `fuzz.partial_ratio`'s algorithm is not modelled. The scorer is a parameter of `FuzzyMatch`, `AnswerQuestion` and `Answer`, with values in 0..100. Every result holds for any such scorer.
- networkx internals beyond what the chatbot observes are not modelled: adjacency dictionaries, attribute dictionaries holding more than `relation`, and views. The model keeps node order, relabelling in place and self-loops. It also keeps each node's neighbour order, as networkx's adjacency order gives it: the edges at a node are obtained by filtering the edge list, which is kept in order of the first insertion of each pair.
- Strings are sequences of characters. Python's whitespace for `strip()` is the list of characters in `Text.IsSpace`. Unicode normalisation and encodings play no part in the source's logic.
