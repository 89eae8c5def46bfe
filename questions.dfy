/**
  The question generator of qa_generator/question_generator.py: the balanced
  distribution of question slots and its shuffle, the generation of one
  question from a content chunk (prompt-type check, JSON extraction from the
  model's answer, fallback questions), the loop over the ten questions of a
  paper, the output file name and the rows prepared for Google Sheets.

  The language model is not modelled: what it answers for the i-th question
  of a paper is a `Backend` input, as are json.loads and the clock. A JSON
  object is a `Record`, a map from keys to values.
*/
module Questions {
  import opened Strings

  // ---------------------------------------------------------------------------
  // Configuration (qa_generator/config.py)

  const QuestionsPerPaper: nat := 10
  const QuestionTypes: seq<string> := ["multiple_choice", "short_answer", "true_false", "fill_in_blank"]
  const CognitiveLevels: seq<string> := ["remember", "understand", "apply", "analyze", "evaluate", "create"]
  const ContentCategories: seq<string> :=
    ["methodology", "results", "conclusions", "background", "visual_content", "formulas"]

  /** The question types that have a prompt template; "fill_in_blank" has none. */
  const PromptTypes: set<string> := {"multiple_choice", "short_answer", "true_false"}

  /** The fixed texts of the fallback questions. */
  const FallbackMultipleChoiceText := "What is the main topic discussed in this research content?"
  const FallbackShortAnswerText := "Summarize the key findings of this research."
  const FallbackExpectedAnswer := "The research discusses important findings related to the topic."
  const FallbackTrueFalseText := "True or False: This research provides valuable insights."
  const FallbackExplanation := "This is a fallback question generated when the AI model failed."

  /** What `i % len(content_chunks)` raises on an empty chunk list. */
  const ModuloByZero := "integer modulo by zero"

  // ---------------------------------------------------------------------------
  // JSON values

  /** The values the generator reads or writes: strings, booleans, the
      options object of a multiple-choice question, and anything else the
      model may return, of which only its truth value matters here. */
  datatype Value = Str(s: string) | Flag(b: bool) | Choices(options: map<string, string>) | Other(truthy: bool)

  /** A key of a JSON object. The keys the generator reads or writes have
      their own constructors; any other key the model returns is `Unknown`
      with its name. */
  datatype Key =
    | Question | Options | CorrectAnswer | ExpectedAnswer | Explanation
    | QuestionType | CognitiveLevel | ContentCategory | SourceContent | IsFallback
    | PaperTitle | Authors | PublicationYear | QuestionId | GenerationTimestamp
    | Unknown(name: string)

  type Record = map<Key, Value>

  /** Python's truth value of a JSON value. */
  predicate Truthy(v: Value)
  {
    match v
    case Str(s) => s != []
    case Flag(b) => b
    case Choices(m) => |m| > 0
    case Other(t) => t
  }

  /** dict.get(key, default) */
  function Get(q: Record, key: Key, default: Value): (v: Value)
    ensures key in q ==> v == q[key]
    ensures key !in q ==> v == default
  {
    if key in q then q[key] else default
  }

  // ---------------------------------------------------------------------------
  // Question distribution

  /** The type, cognitive level and content category of one question. */
  datatype Slot = Slot(questionType: string, cognitiveLevel: string, contentCategory: string)

  /** The i-th slot before shuffling: the three lists are cycled in step. */
  function SlotAt(i: nat): Slot
  {
    Slot(QuestionTypes[i % |QuestionTypes|], CognitiveLevels[i % |CognitiveLevels|],
         ContentCategories[i % |ContentCategories|])
  }

  /** The unshuffled distribution of `total` questions. */
  function RoundRobin(total: nat): (r: seq<Slot>)
    ensures |r| == total
    ensures forall i :: 0 <= i < total ==> r[i] == SlotAt(i)
  {
    seq(total, i requires 0 <= i => SlotAt(i))
  }

  function CountType(d: seq<Slot>, questionType: string): nat
  {
    if d == [] then 0
    else CountType(d[..|d| - 1], questionType) + (if d[|d| - 1].questionType == questionType then 1 else 0)
  }

  /** The round-robin is balanced: the t-th question type is used
      ceil((total - t) / 4) times, so the four counts differ by at most one. */
  lemma {:induction false} RoundRobinBalanced(total: nat, t: nat)
    requires t < |QuestionTypes|
    ensures CountType(RoundRobin(total), QuestionTypes[t]) == (total + 3 - t) / 4
  {
    if total > 0 {
      var n := total - 1;
      var r := RoundRobin(total);
      assert r[..n] == RoundRobin(n);
      RoundRobinBalanced(n, t);
      assert QuestionTypes[n % 4] == QuestionTypes[t] <==> n % 4 == t;
      QuarterStep(n, t);
    }
  }

  lemma {:induction false} CountTypeAppend(a: seq<Slot>, b: seq<Slot>, questionType: string)
    ensures CountType(a + b, questionType) == CountType(a, questionType) + CountType(b, questionType)
    decreases |b|
  {
    if b == [] {
      assert a + b == a;
    } else {
      assert (a + b)[..|a + b| - 1] == a + b[..|b| - 1];
      CountTypeAppend(a, b[..|b| - 1], questionType);
    }
  }

  /** Shuffling does not change how often a question type occurs. */
  lemma {:induction false} CountTypePermutation(a: seq<Slot>, b: seq<Slot>, questionType: string)
    requires multiset(a) == multiset(b)
    ensures CountType(a, questionType) == CountType(b, questionType)
    decreases |a|
  {
    if a == [] {
      assert |b| == |multiset(b)| == 0;
    } else {
      var n := |a| - 1;
      var x := a[n];
      assert a == a[..n] + [x];
      assert x in multiset(b);
      var j :| 0 <= j < |b| && b[j] == x;
      var rest := b[..j] + b[j + 1..];
      assert b == b[..j] + [x] + b[j + 1..];
      assert multiset(b) == multiset(b[..j]) + multiset{x} + multiset(b[j + 1..]);
      assert multiset(a) == multiset(a[..n]) + multiset{x};
      assert multiset(rest) == multiset(b[..j]) + multiset(b[j + 1..]);
      assert multiset(rest) == multiset(b) - multiset{x};
      assert multiset(a[..n]) == multiset(a) - multiset{x};
      CountTypePermutation(a[..n], rest, questionType);
      CountTypeAppend(b[..j] + [x], b[j + 1..], questionType);
      CountTypeAppend(b[..j], [x], questionType);
      CountTypeAppend(b[..j], b[j + 1..], questionType);
      assert CountType([x], questionType) == CountType([], questionType) + (if x.questionType == questionType then 1 else 0);
    }
  }

  lemma QuarterStep(n: nat, t: nat)
    requires t < 4
    ensures (n + 4 - t) / 4 == (n + 3 - t) / 4 + (if n % 4 == t then 1 else 0)
  {
    var q, m := n / 4, n % 4;
    assert n == 4 * q + m;
    if m < t {
      assert n + 4 - t == 4 * q + (m + 4 - t);
      assert n + 3 - t == 4 * q + (m + 3 - t);
    } else {
      assert n + 4 - t == 4 * (q + 1) + (m - t);
      assert n + 3 - t == 4 * q + (m + 3 - t);
    }
  }

  function Swap<T>(s: seq<T>, i: nat, j: nat): (r: seq<T>)
    requires i < |s| && j < |s|
    ensures |r| == |s|
  {
    s[i := s[j]][j := s[i]]
  }

  /** Swapping two positions keeps the elements. */
  lemma SwapPermutes<T>(s: seq<T>, i: nat, j: nat)
    requires i < |s| && j < |s|
    ensures multiset(Swap(s, i, j)) == multiset(s)
  {
  }

  /** The positions i, i-1, ..., 1 of CPython's random.shuffle: position i is
      swapped with position randbelow(i + 1), and the k-th random draw of the
      shuffle is `draws(k)`, reduced into range. */
  function ShuffleDown<T>(s: seq<T>, i: nat, draws: nat -> nat): (r: seq<T>)
    requires i < |s|
    ensures |r| == |s|
    decreases i
  {
    if i == 0 then s
    else ShuffleDown(Swap(s, i, draws(|s| - 1 - i) % (i + 1)), i - 1, draws)
  }

  lemma {:induction false} ShuffleDownPermutes<T>(s: seq<T>, i: nat, draws: nat -> nat)
    requires i < |s|
    ensures multiset(ShuffleDown(s, i, draws)) == multiset(s)
    decreases i
  {
    if i > 0 {
      var j := draws(|s| - 1 - i) % (i + 1);
      SwapPermutes(s, i, j);
      ShuffleDownPermutes(Swap(s, i, j), i - 1, draws);
    }
  }

  /** random.shuffle */
  function Shuffled<T>(s: seq<T>, draws: nat -> nat): (r: seq<T>)
    ensures |r| == |s|
  {
    if s == [] then s else ShuffleDown(s, |s| - 1, draws)
  }

  /** Whatever the draws, the shuffle is a permutation of its input. */
  lemma ShuffledPermutes<T>(s: seq<T>, draws: nat -> nat)
    ensures multiset(Shuffled(s, draws)) == multiset(s)
  {
    if s != [] {
      ShuffleDownPermutes(s, |s| - 1, draws);
    }
  }

  /** One step of the shuffle: position i swapped with the i-th draw. */
  lemma ShuffleStep<T>(s: seq<T>, i: nat, j: nat, draws: nat -> nat)
    requires 0 < i < |s| && j == draws(|s| - 1 - i) % (i + 1)
    ensures ShuffleDown(s, i, draws) == ShuffleDown(Swap(s, i, j), i - 1, draws)
  {
  }

  /** x[i], x[j] = x[j], x[i] */
  method SwapPositions<T>(a: array<T>, i: nat, j: nat)
    requires i < a.Length && j < a.Length
    modifies a
    ensures a[..] == Swap(old(a[..]), i, j)
  {
    a[i], a[j] := a[j], a[i];
  }

  /** One pass of random.shuffle's loop: position i swapped with the
      position its draw picks. */
  method ShuffleSwap<T>(a: array<T>, i: nat, draws: nat -> nat)
    requires 0 < i < a.Length
    modifies a
    ensures ShuffleDown(a[..], i - 1, draws) == ShuffleDown(old(a[..]), i, draws)
  {
    var j := draws(a.Length - 1 - i) % (i + 1);
    ShuffleStep(a[..], i, j, draws);
    SwapPositions(a, i, j);
  }

  /** random.shuffle(x) on a list, in place. */
  method ShuffleInPlace<T>(a: array<T>, draws: nat -> nat)
    modifies a
    ensures a[..] == Shuffled(old(a[..]), draws)
  {
    if a.Length == 0 {
      return;
    }
    var i := a.Length - 1;
    ghost var shuffled := ShuffleDown(a[..], i, draws);
    while i > 0
      invariant 0 <= i < a.Length
      invariant ShuffleDown(a[..], i, draws) == shuffled
      decreases i
    {
      ShuffleSwap(a, i, draws);
      i := i - 1;
    }
    assert ShuffleDown(a[..], 0, draws) == a[..];
  }

  /** _create_question_distribution: a shuffle of the round-robin slots. */
  function Distribution(total: nat, draws: nat -> nat): (d: seq<Slot>)
    ensures |d| == total && multiset(d) == multiset(RoundRobin(total))
  {
    ShuffledPermutes(RoundRobin(total), draws);
    Shuffled(RoundRobin(total), draws)
  }

  /** Every slot of a distribution has one of the four question types, so it
      has a prompt template unless it is fill-in-the-blank. */
  lemma DistributionTypes(total: nat, draws: nat -> nat, i: nat)
    requires i < total
    ensures var t := Distribution(total, draws)[i].questionType;
      t in QuestionTypes && (t in PromptTypes <==> t != "fill_in_blank")
  {
    var d := Distribution(total, draws);
    var rr := RoundRobin(total);
    assert d[i] in multiset(d);
    var j :| 0 <= j < |rr| && rr[j] == d[i];
    assert d[i].questionType == QuestionTypes[j % 4];
  }

  /** Two fill-in-the-blank slots, the 4th and the 8th, are among the ten
      questions of a paper, wherever the shuffle puts them. */
  lemma {:induction false} TwoBlankSlots(draws: nat -> nat) returns (p: nat, q: nat)
    ensures p < QuestionsPerPaper && q < QuestionsPerPaper && p != q
    ensures var d := Distribution(QuestionsPerPaper, draws);
      d[p].questionType == "fill_in_blank" && d[q].questionType == "fill_in_blank"
  {
    var d := Distribution(QuestionsPerPaper, draws);
    var r := RoundRobin(QuestionsPerPaper);
    assert r[3] == SlotAt(3) && r[7] == SlotAt(7);
    assert SlotAt(3) in multiset(r) && SlotAt(7) in multiset(r);
    assert SlotAt(3) in multiset(d) && SlotAt(7) in multiset(d);
    p :| 0 <= p < |d| && d[p] == SlotAt(3);
    q :| 0 <= q < |d| && d[q] == SlotAt(7);
    BlankSlotsDiffer();
  }

  /** The 4th and the 8th slots are both fill-in-the-blank, at different
      cognitive levels. */
  lemma BlankSlotsDiffer()
    ensures SlotAt(3).questionType == "fill_in_blank" && SlotAt(7).questionType == "fill_in_blank"
    ensures SlotAt(3) != SlotAt(7)
  {
    assert SlotAt(3).cognitiveLevel == "analyze" && SlotAt(7).cognitiveLevel == "understand";
  }

  // ---------------------------------------------------------------------------
  // One question

  /** source_content: the chunk, cut to 200 characters and marked with "..."
      when it is longer. */
  function Excerpt(content: string): (r: string)
    ensures |r| <= 203
    ensures |content| <= 200 ==> r == content
    ensures |content| > 200 ==> |r| == 203 && r[..200] == content[..200] && EndsWith(r, "...")
  {
    if |content| > 200 then content[..200] + "..." else content
  }

  /** generated_text[find('{') : rfind('}') + 1], or None when either brace
      is missing (Python's slice is empty when the end comes first). */
  function JsonSlice(text: string): (r: Option<string>)
  {
    var start := Find(text, '{');
    var end := RFind(text, '}') + 1;
    if start != -1 && end != 0 then
      Some(if start < end then text[start..end] else [])
    else None
  }

  /** A slice is found exactly when the text holds both braces; it is empty
      exactly when the last '}' comes before the first '{'. */
  lemma JsonSliceFound(text: string)
    ensures JsonSlice(text).None? <==> '{' !in text || '}' !in text
    ensures JsonSlice(text).Some? ==> (JsonSlice(text).value == [] <==> RFind(text, '}') < Find(text, '{'))
  {
  }

  /** A non-empty slice is the piece of the text from the first '{' to the
      last '}'. */
  lemma JsonSlicePiece(text: string)
    requires JsonSlice(text).Some? && JsonSlice(text).value != []
    ensures var piece := JsonSlice(text).value;
      && piece[0] == '{' && piece[|piece| - 1] == '}'
      && |piece| == RFind(text, '}') + 1 - Find(text, '{')
      && Contains(text, piece)
  {
    var start := Find(text, '{');
    var end := RFind(text, '}') + 1;
    var piece := text[start..end];
    assert JsonSlice(text).value == piece;
    ContainsAt(text, piece, start);
  }

  /** The fields every generated question carries, whichever way it was
      produced: its slot and the start of its source chunk. */
  ghost predicate CarriesSlot(q: Record, slot: Slot, content: string)
  {
    && QuestionType in q && q[QuestionType] == Str(slot.questionType)
    && CognitiveLevel in q && q[CognitiveLevel] == Str(slot.cognitiveLevel)
    && ContentCategory in q && q[ContentCategory] == Str(slot.contentCategory)
    && SourceContent in q && q[SourceContent] == Str(Excerpt(content))
  }

  /** The fields generate_question writes over the parsed answer. */
  function SlotFields(slot: Slot, content: string): Record
  {
    map[QuestionType := Str(slot.questionType),
        CognitiveLevel := Str(slot.cognitiveLevel),
        ContentCategory := Str(slot.contentCategory),
        SourceContent := Str(Excerpt(content))]
  }

  lemma SlotFieldsCarrySlot(slot: Slot, content: string)
    ensures CarriesSlot(SlotFields(slot, content), slot, content)
  {
  }

  /** The fields every fallback question shares: its slot, the source
      chunk, the fallback explanation and the fallback mark. */
  ghost predicate FallbackShape(q: Record, slot: Slot, content: string)
  {
    && CarriesSlot(q, slot, content)
    && IsFallback in q && q[IsFallback] == Flag(true)
    && Explanation in q && q[Explanation] == Str(FallbackExplanation)
    && Question in q && Truthy(q[Question])
  }

  /** _create_fallback_question: a fixed question per type; any type other
      than multiple choice and short answer gets the true/false question. */
  function FallbackQuestion(content: string, slot: Slot): Record
  {
    var common := SlotFields(slot, content)[Explanation := Str(FallbackExplanation)][IsFallback := Flag(true)];
    if slot.questionType == "multiple_choice" then
      common[Question := Str(FallbackMultipleChoiceText)]
            [Options := Choices(map["A" := "Methodology", "B" := "Results", "C" := "Background", "D" := "Conclusions"])]
            [CorrectAnswer := Str("A")]
    else if slot.questionType == "short_answer" then
      common[Question := Str(FallbackShortAnswerText)]
            [ExpectedAnswer := Str(FallbackExpectedAnswer)]
    else
      common[Question := Str(FallbackTrueFalseText)]
            [CorrectAnswer := Str("True")]
  }

  /** Every fallback question records its slot and excerpt, a question and
      the fallback explanation, and is marked as a fallback. */
  lemma FallbackQuestionShape(content: string, slot: Slot)
    ensures FallbackShape(FallbackQuestion(content, slot), slot, content)
  {
  }

  /** The multiple-choice fallback offers four options and its correct
      answer is one of them. */
  lemma MultipleChoiceFallbackAnswer(content: string, slot: Slot)
    requires slot.questionType == "multiple_choice"
    ensures var q := FallbackQuestion(content, slot);
      && Options in q && q[Options].Choices? && |q[Options].options| == 4
      && CorrectAnswer in q && q[CorrectAnswer].Str? && q[CorrectAnswer].s in q[Options].options
  {
    var options := map["A" := "Methodology", "B" := "Results", "C" := "Background", "D" := "Conclusions"];
    assert options.Keys == {"A", "B", "C", "D"};
  }

  /** The short-answer fallback has an expected answer and no correct answer
      or options. */
  lemma ShortAnswerFallbackAnswer(content: string, slot: Slot)
    requires slot.questionType == "short_answer"
    ensures var q := FallbackQuestion(content, slot);
      && CorrectAnswer !in q && Options !in q
      && ExpectedAnswer in q && Truthy(q[ExpectedAnswer])
  {
  }

  /** Every other fallback is the true/false question, whose answer is "True". */
  lemma TrueFalseFallbackAnswer(content: string, slot: Slot)
    requires slot.questionType != "multiple_choice" && slot.questionType != "short_answer"
    ensures var q := FallbackQuestion(content, slot);
      && Options !in q && CorrectAnswer in q && q[CorrectAnswer] == Str("True")
  {
  }

  /** What json.loads gave for the JSON object in the model's answer, or None
      when the model call raised, no braces were found, or the slice did not
      parse (json.loads("") always raises). */
  function ParsedAnswer(answer: Option<string>, parse: string -> Option<Record>): Option<Record>
  {
    match answer
    case None => None
    case Some(text) =>
      match JsonSlice(text)
      case None => None
      case Some(json) => if json == [] then None else parse(json)
  }

  /** A parsed answer comes from a non-empty slice of the model's text. */
  lemma ParsedAnswerFromSlice(answer: Option<string>, parse: string -> Option<Record>)
    requires ParsedAnswer(answer, parse).Some?
    ensures answer.Some? && JsonSlice(answer.value).Some? && JsonSlice(answer.value).value != []
    ensures parse(JsonSlice(answer.value).value) == ParsedAnswer(answer, parse)
  {
  }

  /** The k-th question id of a paper, f"q_{k:03d}". */
  function IdOf(i: nat): string
  {
    "q_" + Padded(i + 1, 3)
  }

  /** Question ids tell the positions they were made for apart. */
  lemma IdOfInjective(i: nat, j: nat)
    requires IdOf(i) == IdOf(j)
    ensures i == j
  {
    assert IdOf(i)[2..] == Padded(i + 1, 3);
    assert IdOf(j)[2..] == Padded(j + 1, 3);
    PaddedInjective(i + 1, j + 1, 3);
  }

  /** question_data.update with the paper's metadata, id and time stamp. */
  function WithPaperFields(q: Record, meta: map<Key, string>, i: nat, timestamp: string): (r: Record)
    ensures QuestionId in r && r[QuestionId] == Str(IdOf(i))
    ensures PaperTitle in r && r[PaperTitle] == Str(if PaperTitle in meta then meta[PaperTitle] else "")
    ensures r.Keys == q.Keys + PaperFieldKeys
  {
    var fields := map[PaperTitle := Str(if PaperTitle in meta then meta[PaperTitle] else ""),
                      Authors := Str(if Authors in meta then meta[Authors] else ""),
                      PublicationYear := Str(if PublicationYear in meta then meta[PublicationYear] else ""),
                      QuestionId := Str(IdOf(i)),
                      GenerationTimestamp := Str(timestamp)];
    assert fields.Keys == PaperFieldKeys;
    q + fields
  }

  /** Adding the paper's fields keeps the slot fields. */
  lemma PaperFieldsKeepSlot(q: Record, slot: Slot, content: string, meta: map<Key, string>, i: nat, timestamp: string)
    requires CarriesSlot(q, slot, content)
    ensures CarriesSlot(WithPaperFields(q, meta, i, timestamp), slot, content)
  {
  }

  const PaperFieldKeys: set<Key> :=
    {PaperTitle, Authors, PublicationYear, QuestionId, GenerationTimestamp}

  /** The paper's fields are added without touching the question's own. */
  lemma PaperFieldsKeepQuestion(q: Record, meta: map<Key, string>, i: nat, timestamp: string)
    ensures var r := WithPaperFields(q, meta, i, timestamp);
      forall k :: k in q && k !in PaperFieldKeys ==> k in r && r[k] == q[k]
  {
  }

  /** Everything outside the program that a question depends on: the text the
      model produces for the i-th question of the paper (None when the model
      call raises), json.loads (None for a JSONDecodeError) and the clock. */
  datatype Backend = Backend(answer: nat -> Option<string>, parse: string -> Option<Record>, clock: nat -> string)

  // ---------------------------------------------------------------------------
  // Keeping the slots that gave a question

  /** The values present in `asked`, in order. */
  function Collect<T>(asked: seq<Option<T>>): (r: seq<T>)
    ensures |r| <= |asked|
  {
    if asked == [] then []
    else
      var last := asked[|asked| - 1];
      Collect(asked[..|asked| - 1]) + (if last.Some? then [last.value] else [])
  }

  lemma CollectStep<T>(asked: seq<Option<T>>, a: Option<T>)
    ensures Collect(asked + [a]) == Collect(asked) + (if a.Some? then [a.value] else [])
  {
    assert (asked + [a])[..|asked|] == asked;
  }

  /** Collecting one more position of a prefix. */
  lemma CollectPrefix<T>(asked: seq<Option<T>>, k: nat)
    requires k < |asked|
    ensures Collect(asked[..k + 1]) == Collect(asked[..k]) + (if asked[k].Some? then [asked[k].value] else [])
  {
    assert asked[..k + 1][..k] == asked[..k];
  }

  /** The positions of `asked` that hold a value, in increasing order. */
  function Positions<T>(asked: seq<Option<T>>): (from: seq<nat>)
    ensures |from| == |Collect(asked)|
    ensures forall k :: 0 <= k < |from| ==> from[k] < |asked|
  {
    if asked == [] then []
    else
      var n := |asked| - 1;
      Positions(asked[..n]) + (if asked[n].Some? then [n] else [])
  }

  lemma {:induction false} PositionsHoldCollected<T>(asked: seq<Option<T>>)
    ensures forall k :: 0 <= k < |Positions(asked)| ==> asked[Positions(asked)[k]] == Some(Collect(asked)[k])
  {
    if asked != [] {
      var n := |asked| - 1;
      var init := asked[..n];
      PositionsHoldCollected(init);
      var from0, r0 := Positions(init), Collect(init);
      var from, r := Positions(asked), Collect(asked);
      if asked[n].Some? {
        assert from == from0 + [n] && r == r0 + [asked[n].value];
      } else {
        assert from == from0 && r == r0;
      }
      forall k | 0 <= k < |from|
        ensures asked[from[k]] == Some(r[k])
      {
        if k < |from0| {
          assert from[k] == from0[k] && r[k] == r0[k];
          assert asked[from0[k]] == init[from0[k]] == Some(r0[k]);
        } else {
          assert from[k] == n && r[k] == asked[n].value;
        }
      }
    }
  }

  lemma {:induction false} PositionsIncrease<T>(asked: seq<Option<T>>)
    ensures forall k, l :: 0 <= k < l < |Positions(asked)| ==> Positions(asked)[k] < Positions(asked)[l]
  {
    if asked != [] {
      var n := |asked| - 1;
      var init := asked[..n];
      PositionsIncrease(init);
      var from0 := Positions(init);
      var from := Positions(asked);
      assert from == from0 + (if asked[n].Some? then [n] else []);
      forall k, l | 0 <= k < l < |from|
        ensures from[k] < from[l]
      {
        assert from[k] == from0[k];
        if l < |from0| {
          assert from[l] == from0[l] && from0[k] < from0[l];
        } else {
          assert from[l] == n && from0[k] < n;
        }
      }
    }
  }

  lemma {:induction false} PositionsComplete<T>(asked: seq<Option<T>>)
    ensures forall i :: 0 <= i < |asked| && asked[i].Some? ==> i in Positions(asked)
  {
    if asked != [] {
      var n := |asked| - 1;
      var init := asked[..n];
      PositionsComplete(init);
      var from0 := Positions(init);
      var from := Positions(asked);
      assert from == from0 + (if asked[n].Some? then [n] else []);
      forall i | 0 <= i < |asked| && asked[i].Some?
        ensures i in from
      {
        if i < n {
          assert init[i] == asked[i];
          var k :| 0 <= k < |from0| && from0[k] == i;
          assert from[k] == i;
        } else {
          assert from[|from| - 1] == n;
        }
      }
    }
  }

  /** Every collected value comes from one position, in order, and every
      present value is collected. */
  lemma CollectOrigin<T>(asked: seq<Option<T>>) returns (from: seq<nat>)
    ensures var r := Collect(asked);
      && |from| == |r|
      && (forall k :: 0 <= k < |from| ==> from[k] < |asked| && asked[from[k]] == Some(r[k]))
      && (forall k, l :: 0 <= k < l < |from| ==> from[k] < from[l])
      && (forall i :: 0 <= i < |asked| && asked[i].Some? ==> i in from)
  {
    from := Positions(asked);
    PositionsHoldCollected(asked);
    PositionsIncrease(asked);
    PositionsComplete(asked);
  }

  /** Two absent positions cost two values. */
  lemma {:induction false} CollectSkips<T>(asked: seq<Option<T>>, p: nat, q: nat)
    requires p < |asked| && q < |asked| && p != q && asked[p].None? && asked[q].None?
    ensures |Collect(asked)| + 2 <= |asked|
  {
    var n := |asked| - 1;
    var init := asked[..n];
    if p == n || q == n {
      var other := if p == n then q else p;
      CollectMissing(init, other);
    } else {
      CollectSkips(init, p, q);
    }
  }

  lemma {:induction false} CollectMissing<T>(asked: seq<Option<T>>, p: nat)
    requires p < |asked| && asked[p].None?
    ensures |Collect(asked)| + 1 <= |asked|
  {
    var n := |asked| - 1;
    if p < n {
      CollectMissing(asked[..n], p);
    }
  }

  lemma {:induction false} CollectAllNone<T>(asked: seq<Option<T>>)
    requires forall i :: 0 <= i < |asked| ==> asked[i].None?
    ensures Collect(asked) == []
  {
    if asked != [] {
      CollectAllNone(asked[..|asked| - 1]);
    }
  }

  /** The values collected are the positions not of type `questionType`,
      when exactly those positions hold a value. */
  lemma {:induction false} CollectCount<T>(asked: seq<Option<T>>, d: seq<Slot>, questionType: string)
    requires |asked| == |d|
    requires forall i :: 0 <= i < |d| ==> (asked[i].None? <==> d[i].questionType == questionType)
    ensures |Collect(asked)| + CountType(d, questionType) == |d|
  {
    if d != [] {
      var n := |d| - 1;
      CollectCount(asked[..n], d[..n], questionType);
    }
  }

  lemma {:induction false} CollectAllSome<T>(asked: seq<Option<T>>)
    requires forall i :: 0 <= i < |asked| ==> asked[i].Some?
    ensures |Collect(asked)| == |asked|
  {
    if asked != [] {
      CollectAllSome(asked[..|asked| - 1]);
    }
  }

  // ---------------------------------------------------------------------------
  // The generator

  /** The state of a QuestionGenerator after __init__: whether a primary or
      fallback model (with its tokenizer) loaded, and whether the Sheets
      client could be created. */
  class QuestionGenerator {
    const modelLoaded: bool
    const sheetsClientAvailable: bool

    constructor(primaryLoaded: bool, fallbackLoaded: bool, sheetsClientReady: bool)
      ensures modelLoaded == (primaryLoaded || fallbackLoaded)
      ensures sheetsClientAvailable == sheetsClientReady
    {
      modelLoaded := primaryLoaded || fallbackLoaded;
      sheetsClientAvailable := sheetsClientReady;
    }

    /** generate_question: nothing for a type without a prompt template or
        without a model; otherwise the parsed answer with the slot fields
        written over it, or the fallback question when the answer gave no
        JSON object. */
    function GenerateQuestion(content: string, slot: Slot, answer: Option<string>, parse: string -> Option<Record>): (r: Option<Record>)
      ensures r.None? <==> slot.questionType !in PromptTypes || !modelLoaded
    {
      if slot.questionType !in PromptTypes || !modelLoaded then None
      else
        match ParsedAnswer(answer, parse)
        case None => Some(FallbackQuestion(content, slot))
        case Some(q) => Some(q + SlotFields(slot, content))
    }

    /** A generated question always records its slot and source excerpt. It
        is the fallback question exactly when the answer held no parsable
        JSON object; otherwise it keeps every other field of that object. */
    lemma GeneratedQuestionContent(content: string, slot: Slot, answer: Option<string>, parse: string -> Option<Record>)
      requires GenerateQuestion(content, slot, answer, parse).Some?
      ensures var q := GenerateQuestion(content, slot, answer, parse).value;
        && CarriesSlot(q, slot, content)
        && (ParsedAnswer(answer, parse).None? ==> q == FallbackQuestion(content, slot))
        && (ParsedAnswer(answer, parse).Some? ==>
              forall k :: k in ParsedAnswer(answer, parse).value && k !in SlotFieldKeys ==>
                k in q && q[k] == ParsedAnswer(answer, parse).value[k])
    {
      match ParsedAnswer(answer, parse)
      case None =>
        FallbackQuestionShape(content, slot);
      case Some(parsed) =>
        SlotFieldsCarrySlot(slot, content);
    }

    /** The question the i-th slot gives, with the paper's fields added:
        the slot is asked of chunk i modulo the number of chunks, and the
        question is stamped with its id q_001, q_002, ... */
    function Asked(meta: map<Key, string>, chunks: seq<string>, d: seq<Slot>, backend: Backend, i: nat): (r: Option<Record>)
      requires i < |d| && chunks != []
      ensures r.Some? <==> d[i].questionType in PromptTypes && modelLoaded
      ensures r.Some? ==> QuestionId in r.value && r.value[QuestionId] == Str(IdOf(i))
    {
      match GenerateQuestion(chunks[i % |chunks|], d[i], backend.answer(i), backend.parse)
      case None => None
      case Some(q) => Some(WithPaperFields(q, meta, i, backend.clock(i)))
    }

    /** A question of the paper records its slot and the excerpt of the
        chunk it was asked of. */
    lemma AskedCarriesSlot(meta: map<Key, string>, chunks: seq<string>, d: seq<Slot>, backend: Backend, i: nat)
      requires i < |d| && chunks != []
      requires Asked(meta, chunks, d, backend, i).Some?
      ensures CarriesSlot(Asked(meta, chunks, d, backend, i).value, d[i], chunks[i % |chunks|])
    {
      var content := chunks[i % |chunks|];
      var g := GenerateQuestion(content, d[i], backend.answer(i), backend.parse);
      GeneratedQuestionContent(content, d[i], backend.answer(i), backend.parse);
      PaperFieldsKeepSlot(g.value, d[i], content, meta, i, backend.clock(i));
    }

    /** What every slot of the distribution gives. */
    function Answers(meta: map<Key, string>, chunks: seq<string>, d: seq<Slot>, backend: Backend): (asked: seq<Option<Record>>)
      requires chunks != []
      ensures |asked| == |d|
      ensures forall i :: 0 <= i < |d| ==> asked[i] == Asked(meta, chunks, d, backend, i)
    {
      seq(|d|, i requires 0 <= i < |d| => Asked(meta, chunks, d, backend, i))
    }

    /** generate_questions_for_paper over a given distribution: the
        ZeroDivisionError of an empty chunk list, or the questions the slots
        gave, in slot order. */
    function QuestionsForPaper(meta: map<Key, string>, chunks: seq<string>, d: seq<Slot>, backend: Backend): (r: Result<seq<Record>>)
      ensures r.Err? <==> chunks == [] && d != []
      ensures r.Ok? ==> |r.value| <= |d|
    {
      if d == [] then Ok([])
      else if chunks == [] then Err(ModuloByZero)
      else Ok(Collect(Answers(meta, chunks, d, backend)))
    }

    /** The loop's step: slot i adds its question, if any, to those of the slots before it. */
    lemma AnswersStep(meta: map<Key, string>, chunks: seq<string>, d: seq<Slot>, backend: Backend, i: nat)
      requires i < |d| && chunks != []
      ensures var asked := Answers(meta, chunks, d, backend);
        Collect(asked[..i + 1]) == Collect(asked[..i]) + (if asked[i].Some? then [asked[i].value] else [])
    {
      var asked := Answers(meta, chunks, d, backend);
      assert asked[..i + 1][..i] == asked[..i];
    }

    lemma AnswersWhole(meta: map<Key, string>, chunks: seq<string>, d: seq<Slot>, backend: Backend)
      requires chunks != [] && d != []
      ensures QuestionsForPaper(meta, chunks, d, backend) == Ok(Collect(Answers(meta, chunks, d, backend)[..|d|]))
    {
      var asked := Answers(meta, chunks, d, backend);
      assert asked[..|d|] == asked;
    }

    /** Each question of a paper comes from one slot, in slot order, and
        every slot that gives a question is one of them. */
    lemma QuestionsOrigin(meta: map<Key, string>, chunks: seq<string>, d: seq<Slot>, backend: Backend)
      returns (from: seq<nat>)
      requires chunks != [] && d != []
      ensures var qs := QuestionsForPaper(meta, chunks, d, backend).value;
        && |from| == |qs|
        && (forall k :: 0 <= k < |from| ==> from[k] < |d| && Asked(meta, chunks, d, backend, from[k]) == Some(qs[k]))
        && (forall k, l :: 0 <= k < l < |from| ==> from[k] < from[l])
        && (forall i :: 0 <= i < |d| && Asked(meta, chunks, d, backend, i).Some? ==> i in from)
    {
      from := CollectOrigin(Answers(meta, chunks, d, backend));
    }

    /** The questions of one paper have pairwise different ids. */
    lemma QuestionIdsDistinct(meta: map<Key, string>, chunks: seq<string>, d: seq<Slot>, backend: Backend, k: nat, l: nat)
      requires chunks != [] && d != []
      requires k < l < |QuestionsForPaper(meta, chunks, d, backend).value|
      ensures var qs := QuestionsForPaper(meta, chunks, d, backend).value;
        QuestionId in qs[k] && QuestionId in qs[l] && qs[k][QuestionId] != qs[l][QuestionId]
    {
      var from := QuestionsOrigin(meta, chunks, d, backend);
      if IdOf(from[k]) == IdOf(from[l]) {
        IdOfInjective(from[k], from[l]);
      }
    }

    /** Without a model no question is made. */
    lemma NoModelNoQuestions(meta: map<Key, string>, chunks: seq<string>, d: seq<Slot>, backend: Backend)
      requires chunks != [] && !modelLoaded
      ensures QuestionsForPaper(meta, chunks, d, backend) == Ok([])
    {
      if d != [] {
        CollectAllNone(Answers(meta, chunks, d, backend));
      }
    }

    /** With a model, a distribution of prompted types gives one question per slot. */
    lemma AllPromptedAnswered(meta: map<Key, string>, chunks: seq<string>, d: seq<Slot>, backend: Backend)
      requires chunks != [] && modelLoaded
      requires forall i :: 0 <= i < |d| ==> d[i].questionType in PromptTypes
      ensures QuestionsForPaper(meta, chunks, d, backend).Ok?
      ensures |QuestionsForPaper(meta, chunks, d, backend).value| == |d|
    {
      if d != [] {
        CollectAllSome(Answers(meta, chunks, d, backend));
      }
    }

    /** Of the ten questions asked for a paper at most eight are produced: the
        two fill-in-the-blank slots have no prompt template. */
    lemma AtMostEightQuestions(meta: map<Key, string>, chunks: seq<string>, draws: nat -> nat, backend: Backend)
      requires chunks != []
      ensures var r := QuestionsForPaper(meta, chunks, Distribution(QuestionsPerPaper, draws), backend);
        r.Ok? && |r.value| <= QuestionsPerPaper - 2
    {
      var d := Distribution(QuestionsPerPaper, draws);
      var p, q := TwoBlankSlots(draws);
      assert "fill_in_blank" !in PromptTypes;
      var asked := Answers(meta, chunks, d, backend);
      assert asked[p].None? && asked[q].None?;
      CollectSkips(asked, p, q);
    }

    /** With a model, exactly eight of the ten questions asked for a paper
        are produced, whatever the shuffle: every slot but the two
        fill-in-the-blank ones gives a question. */
    lemma ExactlyEightQuestions(meta: map<Key, string>, chunks: seq<string>, draws: nat -> nat, backend: Backend)
      requires chunks != [] && modelLoaded
      ensures var r := QuestionsForPaper(meta, chunks, Distribution(QuestionsPerPaper, draws), backend);
        r.Ok? && |r.value| == QuestionsPerPaper - 2
    {
      var d := Distribution(QuestionsPerPaper, draws);
      var rr := RoundRobin(QuestionsPerPaper);
      var asked := Answers(meta, chunks, d, backend);
      forall i | 0 <= i < |d| ensures asked[i].None? <==> d[i].questionType == "fill_in_blank" {
        DistributionTypes(QuestionsPerPaper, draws, i);
      }
      CollectCount(asked, d, "fill_in_blank");
      CountTypePermutation(d, rr, "fill_in_blank");
      RoundRobinBalanced(QuestionsPerPaper, 3);
    }

    /** _create_question_distribution */
    method CreateQuestionDistribution(totalQuestions: nat, draws: nat -> nat) returns (distribution: seq<Slot>)
      ensures distribution == Distribution(totalQuestions, draws)
    {
      var slots: seq<Slot> := [];
      for i := 0 to totalQuestions
        invariant |slots| == i
        invariant forall k :: 0 <= k < i ==> slots[k] == SlotAt(k)
      {
        var questionType := QuestionTypes[i % |QuestionTypes|];
        var cognitiveLevel := CognitiveLevels[i % |CognitiveLevels|];
        var contentCategory := ContentCategories[i % |ContentCategories|];
        slots := slots + [Slot(questionType, cognitiveLevel, contentCategory)];
      }
      assert slots == RoundRobin(totalQuestions);
      var a := new Slot[|slots|](k requires 0 <= k < |slots| => slots[k]);
      assert a[..] == slots;
      ShuffleInPlace(a, draws);
      distribution := a[..];
    }

    /** One pass of the loop of generate_questions_for_paper: the i-th slot
        asked of its chunk, and the question stamped with the paper's fields. */
    method AskSlot(meta: map<Key, string>, contentChunks: seq<string>, questionDistribution: seq<Slot>, backend: Backend, i: nat)
      returns (question: Option<Record>)
      requires i < |questionDistribution| && contentChunks != []
      ensures question == Asked(meta, contentChunks, questionDistribution, backend, i)
    {
      var contentChunk := contentChunks[i % |contentChunks|];
      var questionData := GenerateQuestion(contentChunk, questionDistribution[i], backend.answer(i), backend.parse);
      if questionData.Some? {
        question := Some(WithPaperFields(questionData.value, meta, i, backend.clock(i)));
      } else {
        question := None;
      }
    }

    /** generate_questions_for_paper: ten slots are drawn, and the i-th is
        asked of chunk i modulo the number of chunks. */
    method GenerateQuestionsForPaper(meta: map<Key, string>, contentChunks: seq<string>, draws: nat -> nat, backend: Backend)
      returns (result: Result<seq<Record>>)
      ensures result == QuestionsForPaper(meta, contentChunks, Distribution(QuestionsPerPaper, draws), backend)
    {
      var questionDistribution := CreateQuestionDistribution(QuestionsPerPaper, draws);
      var questions: seq<Record> := [];
      for i := 0 to |questionDistribution|
        invariant contentChunks != [] || i == 0
        invariant contentChunks != [] ==> questions == Collect(Answers(meta, contentChunks, questionDistribution, backend)[..i])
        invariant contentChunks == [] ==> questions == []
      {
        if |contentChunks| == 0 {
          return Err(ModuloByZero);
        }
        var question := AskSlot(meta, contentChunks, questionDistribution, backend, i);
        AnswersStep(meta, contentChunks, questionDistribution, backend, i);
        if question.Some? {
          questions := questions + [question.value];
        }
      }
      AnswersWhole(meta, contentChunks, questionDistribution, backend);
      return Ok(questions);
    }

    /** save_questions_to_sheets: False without a Sheets client; otherwise
        one row per question, in order, and True. The rows are handed back
        here; the source only logs how many there are. */
    method SaveQuestionsToSheets(questions: seq<Record>) returns (saved: bool, sheetData: seq<SheetRow>)
      ensures saved == sheetsClientAvailable
      ensures saved ==> |sheetData| == |questions| && forall k :: 0 <= k < |questions| ==> sheetData[k] == SheetRowOf(questions[k])
      ensures !saved ==> sheetData == []
    {
      if !sheetsClientAvailable {
        return false, [];
      }
      sheetData := [];
      for k := 0 to |questions|
        invariant |sheetData| == k
        invariant forall m :: 0 <= m < k ==> sheetData[m] == SheetRowOf(questions[m])
      {
        sheetData := sheetData + [SheetRowOf(questions[k])];
      }
      saved := true;
    }
  }

  const SlotFieldKeys: set<Key> := {QuestionType, CognitiveLevel, ContentCategory, SourceContent}

  // ---------------------------------------------------------------------------
  // Output

  /** The file-name part of save_questions_to_json: the title characters
      kept, trailing whitespace removed, spaces turned into '_'. */
  function SafeTitle(title: string): (r: string)
    ensures |r| <= |title|
    ensures forall i :: 0 <= i < |r| ==> DirNameChar(r[i])
  {
    ReplaceChar(RStrip(KeepTitleChars(title)), ' ', '_')
  }

  /** A title already made of letters, digits, '_' and '-' is used as it is. */
  lemma SafeTitleFixedPoint(title: string)
    requires forall i :: 0 <= i < |title| ==> DirNameChar(title[i])
    ensures SafeTitle(title) == title
  {
    KeepTitleCharsUnchanged(title);
    assert RStrip(title) == title by {
      if title != [] {
        assert !IsSpace(title[|title| - 1]);
      }
    }
    assert ReplaceChar(title, ' ', '_') == title;
  }

  lemma SafeTitleIdempotent(title: string)
    ensures SafeTitle(SafeTitle(title)) == SafeTitle(title)
  {
    SafeTitleFixedPoint(SafeTitle(title));
  }

  function OutputFileName(title: string): (path: string)
    ensures EndsWith(path, "_questions.json")
  {
    "qa_generator/output/" + SafeTitle(title) + "_questions.json"
  }

  /** The paper_metadata block written next to the questions. */
  datatype OutputData = OutputData(title: string, totalQuestions: nat, generationTimestamp: string, questions: seq<Record>)

  /** The document save_questions_to_json writes: the count it records is the
      number of questions it holds. */
  function QuestionsFile(questions: seq<Record>, title: string, timestamp: string): (o: OutputData)
    ensures o.totalQuestions == |o.questions| && o.questions == questions && o.title == title
  {
    OutputData(title, |questions|, timestamp, questions)
  }

  /** One row of sheet_data. `options` is None where the source writes "",
      and otherwise the value it passes to json.dumps. */
  datatype SheetRow = SheetRow(
    paperTitle: Value, questionId: Value, questionType: Value, cognitiveLevel: Value,
    contentCategory: Value, questionText: Value, options: Option<Value>,
    correctAnswer: Value, explanation: Value, generationTimestamp: Value)

  /** A question as a sheet row: missing fields become "", a short-answer
      question shows its expected answer as the correct answer, and empty
      options are left blank. */
  function SheetRowOf(q: Record): (row: SheetRow)
    ensures row.options.Some? <==> Options in q && Truthy(q[Options])
    ensures CorrectAnswer in q ==> row.correctAnswer == q[CorrectAnswer]
    ensures CorrectAnswer !in q && ExpectedAnswer in q ==> row.correctAnswer == q[ExpectedAnswer]
    ensures QuestionId in q ==> row.questionId == q[QuestionId]
  {
    var empty := Str("");
    SheetRow(
      Get(q, PaperTitle, empty), Get(q, QuestionId, empty), Get(q, QuestionType, empty),
      Get(q, CognitiveLevel, empty), Get(q, ContentCategory, empty), Get(q, Question, empty),
      if Options in q && Truthy(q[Options]) then Some(q[Options]) else None,
      Get(q, CorrectAnswer, Get(q, ExpectedAnswer, empty)),
      Get(q, Explanation, empty), Get(q, GenerationTimestamp, empty))
  }

  /** A fallback question always reaches the sheet with an answer: the
      option letter, the expected answer or "True". */
  lemma FallbackRowHasAnswer(content: string, slot: Slot)
    ensures Truthy(SheetRowOf(FallbackQuestion(content, slot)).correctAnswer)
  {
    if slot.questionType == "multiple_choice" {
      MultipleChoiceFallbackAnswer(content, slot);
    } else if slot.questionType == "short_answer" {
      ShortAnswerFallbackAnswer(content, slot);
    } else {
      TrueFalseFallbackAnswer(content, slot);
    }
  }
}
