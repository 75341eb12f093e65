/** The prompt-generation request handler (POST /api/generate-prompt): it validates
    the request body, resolves the category to a role instruction and a worked
    example, composes the instruction sent to the language model, flattens the
    model's reply to text, reads that text as JSON or falls back to a default
    result, and maps every outcome to a status code.

    The calls the handler makes into code outside it are inputs here: reading the
    request body (an Outcome<Json>), the chat call to the model vendor (an
    Outcome<Content>), JSON.parse (an oracle string -> Option<Json>, None where it
    throws), and the process environment and the JavaScript engine (a Host). */
module Route {
  import opened Text
  import opened Json

  // ---------------------------------------------------------------- catalog

  const DefaultCategory: string := "fun"

  const KnownCategories: set<string> :=
    {"writing", "coding", "art", "fun", "business", "education"}

  /** The role instruction for each category. */
  const Instructions: map<string, string> := map[
    "writing" := "You are an expert creative writer. Generate engaging writing prompts for narratives, essays, or analyses.",
    "coding" := "You are an expert software engineer. Generate prompts for coding projects, algorithms, or system design tasks.",
    "art" := "You are an expert artist. Generate prompts for digital art, illustrations, or creative designs.",
    "fun" := "You are an expert game designer. Generate prompts for playful or interactive experiences.",
    "business" := "You are a business strategist. Generate prompts for business plans, pitches, or strategy development.",
    "education" := "You are an educator. Generate prompts for courses, lessons, or educational activities."
  ]

  /** The one-shot example for each category. */
  const Examples: map<string, string> := map[
    "writing" := "\nExample:\n{\n  \"title\": \"Dystopian City Story\",\n  \"prompt\": \"Write a narrative set in a futuristic dystopian city where technology controls daily life. Explore themes of resistance, freedom, and identity.\",\n  \"category\": \"writing\"\n}",
    "coding" := "\nExample:\n{\n  \"title\": \"Weather App with React\",\n  \"prompt\": \"Build a weather application using React and OpenWeather API. Include features like location-based forecasts, error handling, and responsive design.\",\n  \"category\": \"coding\"\n}",
    "art" := "\nExample:\n{\n  \"title\": \"Futuristic Cyberpunk Portrait\",\n  \"prompt\": \"Create a digital artwork of a cyberpunk-inspired character with neon lights, futuristic armor, and a vibrant city background.\",\n  \"category\": \"art\"\n}",
    "business" := "\nExample:\n{\n  \"title\": \"AI Startup Business Plan\",\n  \"prompt\": \"Develop a business plan for a startup leveraging AI to optimize supply chain logistics. Include market analysis, key features, and revenue strategy.\",\n  \"category\": \"business\"\n}",
    "education" := "\nExample:\n{\n  \"title\": \"Intro to Machine Learning Course\",\n  \"prompt\": \"Design a 6-week course introducing students to machine learning basics with Python. Include weekly topics, practical exercises, and assessments.\",\n  \"category\": \"education\"\n}",
    "fun" := "\nExample:\n{\n  \"title\": \"Escape Room Challenge\",\n  \"prompt\": \"Design a puzzle for a virtual escape room where players must solve math and logic challenges to unlock the next stage.\",\n  \"category\": \"fun\"\n}"
  ]

  /** The handler's fixed texts: the role instruction and the one-shot example of
      each category, the parts of the user-message template around the category,
      the topic and the example, and the system message. SourceCatalog holds the
      values of route.ts; the handler is defined for any catalog that, like that
      one, has an entry for the default category in both tables. */
  datatype Catalog = Catalog(instructions: map<string, string>, examples: map<string, string>,
                             preamble: string, criteria: string, directive: string,
                             systemMessage: string)
  {
    predicate HasDefaults() {
      DefaultCategory in instructions && DefaultCategory in examples
    }

    /** Both tables are keyed by exactly the known categories and hold no empty entry. */
    predicate Complete() {
      && instructions.Keys == KnownCategories && examples.Keys == KnownCategories
      && (forall k :: k in instructions ==> instructions[k] != "")
      && (forall k :: k in examples ==> examples[k] != "")
    }
  }

  const SourceCatalog: Catalog :=
    Catalog(Instructions, Examples, Preamble, Criteria, Directive, SystemMessage)

  /** `table[key] || table.fun`: an absent key, or an empty entry, falls back to
      the entry of the default category. */
  function LookupOrDefault(table: map<string, string>, key: string): (r: string)
    requires DefaultCategory in table
    ensures r == table[DefaultCategory] || (key in table && r == table[key])
    ensures key in table && table[key] != "" ==> r == table[key]
    ensures !(key in table && table[key] != "") ==> r == table[DefaultCategory]
    ensures table[DefaultCategory] != "" ==> r != ""
  {
    if key in table && table[key] != "" then table[key] else table[DefaultCategory]
  }

  function ResolveInstruction(catalog: Catalog, normalizedCategory: string): (r: string)
    requires catalog.HasDefaults()
    ensures r in catalog.instructions.Values
  {
    LookupOrDefault(catalog.instructions, normalizedCategory)
  }

  function ResolveExample(catalog: Catalog, normalizedCategory: string): (r: string)
    requires catalog.HasDefaults()
    ensures r in catalog.examples.Values
  {
    LookupOrDefault(catalog.examples, normalizedCategory)
  }

  /** The category whose profile a normalized category selects. */
  function ResolvedKey(normalizedCategory: string): (k: string)
    ensures k in KnownCategories
    ensures k == normalizedCategory <==> normalizedCategory in KnownCategories
    ensures normalizedCategory !in KnownCategories ==> k == DefaultCategory
  {
    if normalizedCategory in KnownCategories then normalizedCategory else DefaultCategory
  }

  /** In a complete catalog the instruction and the example always come from the
      same category: the category itself when it is known, and "fun" otherwise. */
  lemma CatalogResolution(catalog: Catalog, normalizedCategory: string)
    requires catalog.Complete()
    ensures catalog.HasDefaults()
    ensures ResolveInstruction(catalog, normalizedCategory) == catalog.instructions[ResolvedKey(normalizedCategory)]
    ensures ResolveExample(catalog, normalizedCategory) == catalog.examples[ResolvedKey(normalizedCategory)]
  {
  }

  /** The instruction table has an entry, never empty, for each known category and
      for no other key. */
  lemma InstructionsComplete()
    ensures Instructions.Keys == KnownCategories
    ensures forall k :: k in Instructions ==> Instructions[k] != ""
  {
  }

  /** So has the example table. */
  lemma ExamplesComplete()
    ensures Examples.Keys == KnownCategories
    ensures forall k :: k in Examples ==> Examples[k] != ""
  {
  }

  /** The catalog of route.ts is complete. */
  lemma SourceCatalogComplete()
    ensures SourceCatalog.Complete()
  {
    InstructionsComplete();
    ExamplesComplete();
  }

  /** The category is lower-cased and not trimmed: a category with surrounding
      white space is not a known one, and it selects the "fun" profile. */
  lemma CategoryIsNotTrimmed()
    ensures ToLower("Coding") == "coding" && ResolvedKey("coding") == "coding"
    ensures ToLower(" Coding ") == " coding " && ResolvedKey(" coding ") == DefaultCategory
  {
    assert ToLower("Coding") == "coding" by {
      assert ToLower("Coding")[0] == LowerChar('C');
    }
    assert ToLower(" Coding ") == " coding " by {
      assert ToLower(" Coding ")[1] == LowerChar('C');
    }
    assert " coding " !in KnownCategories;
  }

  // ---------------------------------------------------------------- validation

  /** The outcome of `const { topic, category } = body` followed by
      `!topic?.trim() || !category?.trim()`. */
  datatype Validation =
    | Accepted(topic: string, category: string)
    | Rejected
    | Faulted(error: Thrown)

  /** `x?.trim()` tested for truthiness: Blank when x is undefined or null or trims
      to the empty string, Present when x is a string that does not, NotString when
      x is any other value (calling trim on it throws a TypeError). */
  datatype Presence = Blank | Present(s: string) | NotString

  function PresenceOf(x: Option<Json>): (p: Presence)
    ensures p.Present? ==> x == Some(JString(p.s)) && !AllWhite(p.s)
  {
    match x
    case None => Blank
    case Some(JNull) => Blank
    case Some(JString(s)) => TrimEmptyIffBlank(s); if Trim(s) == "" then Blank else Present(s)
    case Some(_) => NotString
  }

  /** Where validation raises a TypeError: destructuring a null body, or calling
      `trim` on a topic or a category that is neither a string nor null. */
  datatype TypeErrorSite = NullBody | TopicNotString | CategoryNotString

  /** The process environment and the JavaScript engine, as far as the handler
      sees them: the COHERE_MODEL variable, and the message text of the TypeError
      the engine raises at each site. */
  datatype Host = Host(cohereModel: Option<string>, typeErrorMessage: TypeErrorSite -> string)

  /** The TypeError raised at a site, as the handler's catch clause receives it. */
  function RaisedAt(host: Host, site: TypeErrorSite): Thrown {
    ErrorObject(host.typeErrorMessage(site))
  }

  /** An accepted body has both fields as strings that are not blank, passed on as
      sent; a faulted one carries the TypeError of one of the three sites. */
  function Validate(body: Json, host: Host): (v: Validation)
    ensures v.Accepted? ==>
      && !body.JNull?
      && Get(body, "topic") == Some(JString(v.topic)) && !AllWhite(v.topic)
      && Get(body, "category") == Some(JString(v.category)) && !AllWhite(v.category)
    ensures v.Faulted? ==>
      v.error == RaisedAt(host, NullBody) || v.error == RaisedAt(host, TopicNotString) ||
      v.error == RaisedAt(host, CategoryNotString)
  {
    if body.JNull? then Faulted(RaisedAt(host, NullBody))
    else match PresenceOf(Get(body, "topic"))
      case Blank => Rejected
      case NotString => Faulted(RaisedAt(host, TopicNotString))
      case Present(topic) =>
        match PresenceOf(Get(body, "category"))
        case Blank => Rejected
        case NotString => Faulted(RaisedAt(host, CategoryNotString))
        case Present(category) => Accepted(topic, category)
  }

  /** A field that is missing, null, or a string of white space only. */
  predicate MissingOrBlank(x: Option<Json>) {
    x == None || x == Some(JNull) || (x.Some? && x.value.JString? && AllWhite(x.value.s))
  }

  predicate IsString(x: Option<Json>) {
    x.Some? && x.value.JString?
  }

  /** A field is Blank exactly when it is missing, null or white space, Present
      exactly when it is a string that is not, and NotString otherwise. */
  lemma PresenceCases(x: Option<Json>)
    ensures PresenceOf(x) == Blank <==> MissingOrBlank(x)
    ensures PresenceOf(x).Present? <==> IsString(x) && !MissingOrBlank(x)
    ensures PresenceOf(x).Present? ==> x == Some(JString(PresenceOf(x).s))
  {
    if IsString(x) {
      TrimEmptyIffBlank(x.value.s);
    }
  }

  /** A request is rejected exactly when the body is not null and either its topic
      is missing or blank, or its topic is a string and its category is missing or
      blank; it is accepted exactly when both are strings that are not blank, and
      then the fields are passed on as sent, untrimmed. */
  lemma ValidateCases(body: Json, host: Host)
    ensures Validate(body, host) == Rejected <==>
      !body.JNull? &&
      (MissingOrBlank(Get(body, "topic")) ||
       (IsString(Get(body, "topic")) && MissingOrBlank(Get(body, "category"))))
    ensures Validate(body, host).Accepted? <==>
      !body.JNull? &&
      IsString(Get(body, "topic")) && !MissingOrBlank(Get(body, "topic")) &&
      IsString(Get(body, "category")) && !MissingOrBlank(Get(body, "category"))
    ensures Validate(body, host).Accepted? ==>
      Get(body, "topic") == Some(JString(Validate(body, host).topic)) &&
      Get(body, "category") == Some(JString(Validate(body, host).category))
  {
    if !body.JNull? {
      PresenceCases(Get(body, "topic"));
      PresenceCases(Get(body, "category"));
    }
  }

  /** Validation throws exactly when the body is null, when the topic is neither
      missing, null nor a string, or when the topic is a non-blank string and the
      category is neither missing, null nor a string; the TypeError is the one
      raised at that site. */
  lemma ValidateFaults(body: Json, host: Host)
    ensures Validate(body, host).Faulted? <==>
      || body.JNull?
      || (!body.JNull? && !MissingOrBlank(Get(body, "topic")) && !IsString(Get(body, "topic")))
      || (!body.JNull? && IsString(Get(body, "topic")) && !MissingOrBlank(Get(body, "topic")) &&
          !MissingOrBlank(Get(body, "category")) && !IsString(Get(body, "category")))
    ensures Validate(body, host).Faulted? ==>
      Validate(body, host).error ==
        RaisedAt(host, if body.JNull? then NullBody
                       else if !IsString(Get(body, "topic")) then TopicNotString
                       else CategoryNotString)
  {
    if !body.JNull? {
      PresenceCases(Get(body, "topic"));
      PresenceCases(Get(body, "category"));
    }
  }

  /** A body whose topic and category are strings that are not blank is accepted
      with those strings. */
  lemma ValidateAccepts(body: Json, host: Host, topic: string, category: string)
    requires !body.JNull?
    requires Get(body, "topic") == Some(JString(topic)) && Trim(topic) != ""
    requires Get(body, "category") == Some(JString(category)) && Trim(category) != ""
    ensures Validate(body, host) == Accepted(topic, category)
  {
  }

  // ---------------------------------------------------------------- composition

  const Preamble: string :=
    "\nYour task: Generate a JSON object representing a single high-quality AI prompt.\n\nThe JSON must have this structure:\n{\n  \"title\": \"short descriptive title\",\n  \"prompt\": \"the actual AI-ready prompt text\",\n"

  const Criteria: string :=
    "\n}\n\nMake sure the prompt is:\n- Clear and engaging\n- Specific (not vague)\n- Useful as input for AI models like ChatGPT, Claude, or Gemini\n"

  const Directive: string := "\nNow generate the JSON for this topic.\n"

  const CategoryKey: string := "  \"category\": \""

  const TopicKey: string := "- Inspired by the topic: \""

  const Quote: string := "\""

  /** The schema line that fixes the category the model is to report. */
  function CategoryLine(normalizedCategory: string): string {
    CategoryKey + normalizedCategory + Quote
  }

  /** The criterion that quotes the topic, verbatim and unescaped. */
  function TopicLine(topic: string): string {
    TopicKey + topic + Quote
  }

  /** The user message sent to the model. */
  function Compose(catalog: Catalog, instruction: string, normalizedCategory: string, topic: string,
                   example: string): string {
    instruction + catalog.preamble + CategoryLine(normalizedCategory) + catalog.criteria
      + TopicLine(topic) + "\n\n" + example + catalog.directive
  }

  /** Where each part of a concatenation of eight strings lies. */
  lemma PartsAt(a: string, b: string, c: string, d: string, e: string, f: string, g: string, h: string)
    ensures var r := a + b + c + d + e + f + g + h;
      && OccursAt(a, r, 0)
      && OccursAt(c, r, |a| + |b|)
      && OccursAt(e, r, |a| + |b| + |c| + |d|)
      && OccursAt(g, r, |a| + |b| + |c| + |d| + |e| + |f|)
      && OccursAt(h, r, |r| - |h|)
  {
    var r := a + b + c + d + e + f + g + h;
    var i := |a| + |b|;
    var j := i + |c| + |d|;
    var k := j + |e| + |f|;
    assert r[..|a|] == a;
    assert r[i..i + |c|] == c;
    assert r[j..j + |e|] == e;
    assert r[k..k + |g|] == g;
    assert r[|r| - |h|..] == h;
  }

  /** The composed text opens with the role instruction, then has the schema line
      with the normalized category, then the criterion quoting the topic, then the
      example, which is immediately followed by the closing directive that ends it. */
  lemma ComposeLayout(catalog: Catalog, instruction: string, normalizedCategory: string, topic: string, example: string)
    ensures var r := Compose(catalog, instruction, normalizedCategory, topic, example);
      var atCategory := |instruction| + |catalog.preamble|;
      var atTopic := atCategory + |CategoryLine(normalizedCategory)| + |catalog.criteria|;
      var atExample := atTopic + |TopicLine(topic)| + 2;
      && OccursAt(instruction, r, 0)
      && OccursAt(CategoryLine(normalizedCategory), r, atCategory)
      && OccursAt(TopicLine(topic), r, atTopic)
      && OccursAt(example, r, atExample)
      && atExample + |example| == |r| - |catalog.directive|
      && OccursAt(catalog.directive, r, |r| - |catalog.directive|)
  {
    PartsAt(instruction, catalog.preamble, CategoryLine(normalizedCategory), catalog.criteria,
            TopicLine(topic), "\n\n", example, catalog.directive);
  }

  lemma ComposeLength(catalog: Catalog, instruction: string, normalizedCategory: string, topic: string, example: string)
    ensures |Compose(catalog, instruction, normalizedCategory, topic, example)|
         == |instruction| + |catalog.preamble| + |CategoryLine(normalizedCategory)| + |catalog.criteria|
            + |TopicKey| + |topic| + |Quote| + 2 + |example| + |catalog.directive|
  {
  }

  /** A part of a string found at index i is itself found |p| further on. */
  lemma InnerAt(p: string, y: string, q: string, r: string, i: int)
    requires OccursAt(p + y + q, r, i)
    ensures OccursAt(y, r, i + |p|)
  {
    var w := r[i..i + |p + y + q|];
    assert w == p + y + q;
    forall k | 0 <= k < |y| ensures r[i + |p| + k] == y[k] {
      assert r[i + |p| + k] == w[|p| + k];
    }
  }

  lemma ComposeCategoryInjective(catalog: Catalog, instruction: string, example: string,
                                 category1: string, topic1: string, category2: string, topic2: string)
    requires Compose(catalog, instruction, category1, topic1, example) == Compose(catalog, instruction, category2, topic2, example)
    requires |category1| == |category2|
    ensures category1 == category2
  {
    ComposeLayout(catalog, instruction, category1, topic1, example);
    ComposeLayout(catalog, instruction, category2, topic2, example);
    var a := |instruction| + |catalog.preamble|;
    InnerAt(CategoryKey, category1, Quote, Compose(catalog, instruction, category1, topic1, example), a);
    InnerAt(CategoryKey, category2, Quote, Compose(catalog, instruction, category2, topic2, example), a);
  }

  lemma ComposeTopicInjective(catalog: Catalog, instruction: string, example: string, category: string,
                              topic1: string, topic2: string)
    requires Compose(catalog, instruction, category, topic1, example) == Compose(catalog, instruction, category, topic2, example)
    ensures topic1 == topic2
  {
    var r := Compose(catalog, instruction, category, topic1, example);
    ComposeLength(catalog, instruction, category, topic1, example);
    ComposeLength(catalog, instruction, category, topic2, example);
    ComposeLayout(catalog, instruction, category, topic1, example);
    ComposeLayout(catalog, instruction, category, topic2, example);
    var b := |instruction| + |catalog.preamble| + |CategoryLine(category)| + |catalog.criteria|;
    InnerAt(TopicKey, topic1, Quote, r, b);
    InnerAt(TopicKey, topic2, Quote, r, b);
  }

  /** The quote that closes the category line is the first quote at or after the
      category's start, when the category holds no quote. */
  lemma CategoryEndsAtQuote(catalog: Catalog, instruction: string, normalizedCategory: string,
                            topic: string, example: string)
    requires '"' !in normalizedCategory
    ensures var r := Compose(catalog, instruction, normalizedCategory, topic, example);
      var a := |instruction| + |catalog.preamble| + |CategoryKey|;
      && a + |normalizedCategory| < |r| && r[a + |normalizedCategory|] == '"'
      && forall i :: a <= i < a + |normalizedCategory| ==> r[i] != '"'
  {
    var r := Compose(catalog, instruction, normalizedCategory, topic, example);
    var b := |instruction| + |catalog.preamble|;
    ComposeLayout(catalog, instruction, normalizedCategory, topic, example);
    InnerAt(CategoryKey, normalizedCategory, Quote, r, b);
    assert CategoryKey + normalizedCategory + Quote == (CategoryKey + normalizedCategory) + Quote + [];
    InnerAt(CategoryKey + normalizedCategory, Quote, [], r, b);
    OccursAtIndex(Quote, r, b + |CategoryKey| + |normalizedCategory|, 0);
    QuoteFreeAt(normalizedCategory, r, b + |CategoryKey|);
  }

  lemma OccursAtIndex(sub: string, r: string, i: int, k: nat)
    requires OccursAt(sub, r, i) && k < |sub|
    ensures i + k < |r| && r[i + k] == sub[k]
  {
    assert r[i + k] == r[i..i + |sub|][k];
  }

  /** An occurrence of a quote-free string is a quote-free stretch. */
  lemma QuoteFreeAt(sub: string, r: string, i: int)
    requires OccursAt(sub, r, i) && '"' !in sub
    ensures forall j :: i <= j < i + |sub| ==> r[j] != '"'
  {
    forall j | i <= j < i + |sub| ensures r[j] != '"' {
      OccursAtIndex(sub, r, i, j - i);
    }
  }

  /** A quote at offset n after a, in a stretch of m quote-free characters from a,
      lies beyond that stretch. */
  lemma QuoteBound(r: string, a: nat, n: nat, m: nat)
    requires a + n < |r| && r[a + n] == '"'
    requires forall i :: a <= i < a + m && i < |r| ==> r[i] != '"'
    ensures m <= n
  {
  }

  /** Composition loses nothing when the categories hold no quote: the category
      and the topic can be read back from the text, so different such requests
      under one profile give different texts. */
  lemma ComposeInjective(catalog: Catalog, instruction: string, example: string,
                         category1: string, topic1: string, category2: string, topic2: string)
    requires Compose(catalog, instruction, category1, topic1, example) == Compose(catalog, instruction, category2, topic2, example)
    requires '"' !in category1 && '"' !in category2
    ensures category1 == category2 && topic1 == topic2
  {
    var r := Compose(catalog, instruction, category1, topic1, example);
    var a := |instruction| + |catalog.preamble| + |CategoryKey|;
    CategoryEndsAtQuote(catalog, instruction, category1, topic1, example);
    CategoryEndsAtQuote(catalog, instruction, category2, topic2, example);
    QuoteBound(r, a, |category1|, |category2|);
    QuoteBound(r, a, |category2|, |category1|);
    ComposeCategoryInjective(catalog, instruction, example, category1, topic1, category2, topic2);
    ComposeTopicInjective(catalog, instruction, example, category1, topic1, topic2);
  }

  lemma Regroup3(p: string, a: string, b: string, c: string)
    ensures p + (a + b + c) == p + a + b + c
  {
  }

  lemma Regroup5(p: string, a: string, b: string, c: string, d: string, e: string)
    ensures p + (a + b + c + d + e) == p + a + b + c + d + e
  {
  }

  /** A category that closes its own quote and repeats the criteria can take in
      the start of the topic: two different requests then give the same text. */
  lemma ComposeQuoteCollision(catalog: Catalog, instruction: string, example: string,
                              x: string, y: string, z: string)
    ensures var category2 := x + Quote + catalog.criteria + TopicKey + y;
      && category2 != x
      && Compose(catalog, instruction, x, y + Quote + catalog.criteria + TopicKey + z, example)
         == Compose(catalog, instruction, category2, z, example)
  {
    var h := instruction + catalog.preamble;
    var crit := catalog.criteria;
    var topic1 := y + Quote + crit + TopicKey + z;
    var category2 := x + Quote + crit + TopicKey + y;
    assert |category2| > |x|;
    var flat := h + CategoryKey + x + Quote + crit + TopicKey + y + Quote + crit + TopicKey + z + Quote;
    // the first request, regrouped
    var u := h + CategoryKey + x + Quote;
    Regroup3(h, CategoryKey, x, Quote);
    Regroup3(u + crit, TopicKey, topic1, Quote);
    Regroup5(u + crit + TopicKey, y, Quote, crit, TopicKey, z);
    assert h + CategoryLine(x) + crit + TopicLine(topic1) == flat;
    // the second request, regrouped
    Regroup3(h, CategoryKey, category2, Quote);
    Regroup5(h + CategoryKey, x, Quote, crit, TopicKey, y);
    var v := h + CategoryKey + category2 + Quote;
    Regroup3(v + crit, TopicKey, z, Quote);
    assert h + CategoryLine(category2) + crit + TopicLine(z) == flat;
  }

  // ---------------------------------------------------------------- the model's reply

  /** One segment of a reply: its `text` when that is a string, None otherwise. */
  datatype Segment = Segment(text: Option<string>)

  /** `response.message?.content`: a string, an array of segments, or anything else
      (including undefined). */
  datatype Content = TextContent(s: string) | SegmentList(segments: seq<Segment>) | NoContent

  function PieceOf(segment: Segment): string {
    match segment.text
    case Some(t) => t
    case None => ""
  }

  function Pieces(segments: seq<Segment>): (r: seq<string>)
    ensures |r| == |segments|
    ensures forall i :: 0 <= i < |segments| ==> r[i] == PieceOf(segments[i])
  {
    seq(|segments|, i requires 0 <= i < |segments| => PieceOf(segments[i]))
  }

  /** The reply as one string: the text itself, the segments' texts joined with
      single spaces, or "". */
  function Flatten(content: Content): string {
    match content
    case TextContent(s) => s
    case SegmentList(segments) => Join(Pieces(segments), " ")
    case NoContent => ""
  }

  /** A string reply is passed on unchanged and anything that is neither a string
      nor an array gives "". A list of n > 0 segments gives n pieces (the text of a
      segment whose text is a string, "" for any other) with one space between
      neighbours, so its length is the pieces' total plus n - 1, and piece k starts
      after the k pieces before it and k spaces. */
  lemma FlattenShape(content: Content)
    ensures content.TextContent? ==> Flatten(content) == content.s
    ensures content.NoContent? ==> Flatten(content) == ""
    ensures content.SegmentList? && content.segments == [] ==> Flatten(content) == ""
    ensures content.SegmentList? && content.segments != [] ==>
      |Flatten(content)| == SumLen(Pieces(content.segments)) + |content.segments| - 1
    ensures content.SegmentList? ==>
      forall k :: 0 <= k < |content.segments| ==>
        OccursAt(PieceOf(content.segments[k]), Flatten(content),
                 SumLen(Pieces(content.segments)[..k]) + k)
    ensures content.SegmentList? ==>
      forall k :: 0 <= k < |content.segments| ==> PlacedAt(Pieces(content.segments), " ", k)
  {
    if content.SegmentList? {
      var ps := Pieces(content.segments);
      forall k | 0 <= k < |content.segments|
        ensures OccursAt(PieceOf(content.segments[k]), Flatten(content), SumLen(ps[..k]) + k)
        ensures PlacedAt(ps, " ", k)
      {
        JoinAt(ps, " ", k);
      }
    }
  }

  // ---------------------------------------------------------------- extraction

  const UntitledTitle: string := "Untitled"

  /** The result substituted when the reply is not JSON: the whole reply becomes
      the prompt, and the category is the request's, as sent. */
  function Fallback(generated: string, category: string): Json {
    JObject(map["title" := JString(UntitledTitle), "prompt" := JString(generated), "category" := JString(category)])
  }

  /** `try { JSON.parse(generated) } catch { fallback }`. */
  function Extract(generated: string, category: string, parse: string -> Option<Json>): Json {
    match parse(generated)
    case Some(parsed) => parsed
    case None => Fallback(generated, category)
  }

  /** The fallback's members, as a client reading the response sees them. */
  lemma FallbackFields(generated: string, category: string)
    ensures Get(Fallback(generated, category), "title") == Some(JString("Untitled"))
    ensures Get(Fallback(generated, category), "prompt") == Some(JString(generated))
    ensures Get(Fallback(generated, category), "category") == Some(JString(category))
  {
  }

  /** A reply that parses is returned as parsed, with no check of its shape and no
      correction of its category; one that does not is returned as the prompt of an
      "Untitled" result carrying the given category. */
  lemma ExtractCases(generated: string, category: string, parse: string -> Option<Json>)
    ensures parse(generated).Some? ==> Extract(generated, category, parse) == parse(generated).value
    ensures parse(generated).None? ==>
      var r := Extract(generated, category, parse);
      && r.JObject? && r.fields.Keys == {"title", "prompt", "category"}
      && r.fields["title"] == JString("Untitled")
      && r.fields["prompt"] == JString(generated)
      && r.fields["category"] == JString(category)
  {
  }

  // ---------------------------------------------------------------- the handler

  const DefaultModel: string := "command-a-03-2025"

  const SystemMessage: string :=
    "You are an AI prompt generator. Always respond with valid JSON containing a 'title', 'prompt', and 'category'."

  const RequiredMessage: string := "Topic and category are required."

  const UnexpectedMessage: string := "Unexpected error while generating prompt"

  /** `process.env.COHERE_MODEL || "command-a-03-2025"`. */
  function ModelId(host: Host): (m: string)
    ensures m != ""
    ensures host.cohereModel.Some? && host.cohereModel.value != "" ==> m == host.cohereModel.value
  {
    match host.cohereModel
    case Some(name) => if name != "" then name else DefaultModel
    case None => DefaultModel
  }

  /** The chat request sent to the model vendor. */
  datatype ChatRequest = ChatRequest(model: string, system: string, user: string)

  datatype Response = Response(status: nat, body: Json)

  /** What one request does: the chat request it sends, if any, and its response. */
  datatype Exchange = Exchange(sent: Option<ChatRequest>, response: Response)

  function ErrorBody(message: string): Json {
    JObject(map["error" := JString(message)])
  }

  /** `error instanceof Error ? error.message : "Unexpected error ..."`. */
  function ErrorMessage(error: Thrown): string {
    match error
    case ErrorObject(message) => message
    case OtherValue => UnexpectedMessage
  }

  function ServerError(error: Thrown): Response {
    Response(500, ErrorBody(ErrorMessage(error)))
  }

  function ChatFor(catalog: Catalog, host: Host, topic: string, category: string): ChatRequest
    requires catalog.HasDefaults()
  {
    var normalized := ToLower(category);
    ChatRequest(ModelId(host), catalog.systemMessage,
      Compose(catalog, ResolveInstruction(catalog, normalized), normalized, topic,
              ResolveExample(catalog, normalized)))
  }

  /** POST /api/generate-prompt, given how reading the body ends, how the chat call
      would end, and JSON.parse. */
  function Handle(catalog: Catalog, host: Host, read: Outcome<Json>, reply: Outcome<Content>,
                  parse: string -> Option<Json>): Exchange
    requires catalog.HasDefaults()
  {
    match read
    case Threw(error) => Exchange(None, ServerError(error))
    case Ok(body) =>
      match Validate(body, host)
      case Faulted(error) => Exchange(None, ServerError(error))
      case Rejected => Exchange(None, Response(400, ErrorBody(RequiredMessage)))
      case Accepted(topic, category) =>
        var chat := ChatFor(catalog, host, topic, category);
        match reply
        case Threw(error) => Exchange(Some(chat), ServerError(error))
        case Ok(content) =>
          Exchange(Some(chat), Response(200, Extract(Flatten(content), category, parse)))
  }

  /** The status is 400 exactly when the body was read and fails validation, and
      then the body is the fixed message and no chat request is sent. */
  lemma HandleRejects(catalog: Catalog, host: Host, read: Outcome<Json>, reply: Outcome<Content>,
                      parse: string -> Option<Json>)
    requires catalog.HasDefaults()
    ensures var x := Handle(catalog, host, read, reply, parse);
      x.response.status == 400 <==> read.Ok? && Validate(read.value, host) == Rejected
    ensures var x := Handle(catalog, host, read, reply, parse);
      x.response.status == 400 ==>
        x.sent == None && x.response.body == ErrorBody("Topic and category are required.")
  {
  }

  /** A chat request is sent exactly when the request is accepted, and it carries
      the configured model, the fixed system message, and the text composed from the
      raw topic and the lower-cased category with the profile that category selects. */
  lemma HandleSends(catalog: Catalog, host: Host, read: Outcome<Json>, reply: Outcome<Content>,
                    parse: string -> Option<Json>)
    requires catalog.Complete()
    ensures var x := Handle(catalog, host, read, reply, parse);
      x.sent.Some? <==> read.Ok? && Validate(read.value, host).Accepted?
    ensures var x := Handle(catalog, host, read, reply, parse);
      x.sent.Some? ==>
        var v := Validate(read.value, host);
        var key := ResolvedKey(ToLower(v.category));
        && x.sent.value.model == ModelId(host)
        && x.sent.value.system == catalog.systemMessage
        && x.sent.value.user ==
             Compose(catalog, catalog.instructions[key], ToLower(v.category), v.topic, catalog.examples[key])
  {
    if read.Ok? && Validate(read.value, host).Accepted? {
      CatalogResolution(catalog, ToLower(Validate(read.value, host).category));
    }
  }

  /** The status is always 200, 400 or 500. It is 500 exactly when reading the body
      throws, the engine raises a TypeError during validation, or the accepted
      request's chat call throws; the body then carries the message of an Error
      and the generic message for any other thrown value. */
  lemma HandleFails(catalog: Catalog, host: Host, read: Outcome<Json>, reply: Outcome<Content>,
                    parse: string -> Option<Json>)
    requires catalog.HasDefaults()
    ensures var s := Handle(catalog, host, read, reply, parse).response.status;
      s == 200 || s == 400 || s == 500
    ensures var x := Handle(catalog, host, read, reply, parse);
      x.response.status == 500 <==>
        read.Threw? || Validate(read.value, host).Faulted? ||
        (Validate(read.value, host).Accepted? && reply.Threw?)
    ensures var x := Handle(catalog, host, read, reply, parse);
      x.response.status == 500 ==>
        var error := if read.Threw? then read.thrown
                     else if Validate(read.value, host).Faulted? then Validate(read.value, host).error
                     else reply.thrown;
        x.response.body == ErrorBody(if error.ErrorObject? then error.message else UnexpectedMessage)
  {
  }

  /** The status is 200 exactly when the request is accepted and the chat call
      returns, and the body is then the extraction of the flattened reply, whose
      fallback carries the category as sent, not lower-cased. */
  lemma HandleSucceeds(catalog: Catalog, host: Host, read: Outcome<Json>, reply: Outcome<Content>,
                       parse: string -> Option<Json>)
    requires catalog.HasDefaults()
    ensures var x := Handle(catalog, host, read, reply, parse);
      x.response.status == 200 <==> read.Ok? && Validate(read.value, host).Accepted? && reply.Ok?
    ensures var x := Handle(catalog, host, read, reply, parse);
      x.response.status == 200 ==>
        var v := Validate(read.value, host);
        var generated := Flatten(reply.value);
        x.response.body == (if parse(generated).Some? then parse(generated).value
                            else Fallback(generated, v.category))
  {
  }

  /** A reply with no text yields the "Untitled" fallback with an empty prompt and
      status 200, since JSON.parse rejects the empty string. */
  lemma EmptyReplyFallsBack(catalog: Catalog, host: Host, body: Json, content: Content,
                            parse: string -> Option<Json>)
    requires catalog.HasDefaults()
    requires Validate(body, host).Accepted?
    requires content == NoContent || content == TextContent("") || content == SegmentList([])
    requires parse("") == None
    ensures Handle(catalog, host, Ok(body), Ok(content), parse).response
         == Response(200, Fallback("", Validate(body, host).category))
  {
  }
}
