/**
 * The tutorials API handlers and the seeding step run at start-up, over the
 * in-memory store. Validation is abstracted as its outcome.
 */
module ServerRoutes {
  import opened Wrappers
  import opened Text
  import opened Seqs
  import opened Schema
  import opened SharedRoutes
  import opened Storage

  /** A JSON body the handlers send. */
  datatype Body =
    | TutorialList(rows: seq<Tutorial>)
    | TutorialBody(tutorial: Tutorial)
    | Message(message: string)
    | FieldError(message: string, field: string)

  datatype Response = Response(status: int, body: Body)

  /** What became of a request: a response was sent, or the handler threw. */
  datatype Outcome = Replied(response: Response) | Thrown

  /** One segment of a validation issue's path: an object key or an array index. */
  datatype PathKey = Key(name: string) | Index(n: int)

  /** A validation issue: its message and the path of the offending field. */
  datatype Issue = Issue(message: string, path: seq<PathKey>)

  /** The result of validating a request body against the insert schema. */
  datatype Validation = Parsed(input: NewTutorial) | Invalid(issues: seq<Issue>)

  function SegmentText(k: PathKey): string {
    match k
    case Key(name) => name
    case Index(n) => Decimal(n)
  }

  /** The text of each segment: a key as itself, an index as `String(n)`. */
  function PathSegments(path: seq<PathKey>): (r: seq<string>)
    ensures |r| == |path| && forall k :: 0 <= k < |path| ==> r[k] == SegmentText(path[k])
  {
    seq(|path|, i requires 0 <= i < |path| => SegmentText(path[i]))
  }

  /** `path.join('.')`. */
  function PathText(path: seq<PathKey>): string {
    Join(PathSegments(path), '.')
  }

  /** The list route: the query's three values as the filter record, answered with 200. */
  method ListHandler(store: Store, search: Option<string>, style: Option<string>, difficulty: Option<string>)
    returns (response: Response)
    ensures response.status == 200 && response.body.TutorialList?
    ensures forall t :: t in response.body.rows <==>
      t in store.tutorials && Matches(Some(Filters(search, style, difficulty)), t)
    ensures IsSubsequence(response.body.rows, store.tutorials)
  {
    var rows := store.GetTutorials(Some(Filters(search, style, difficulty)));
    response := Response(200, TutorialList(rows));
  }

  /** The get route: 404 with "Tutorial not found" when no row has the id,
      otherwise 200 with the row. */
  function GetHandler(store: Store, id: int): (response: Response)
    reads store
    ensures response.status == 404 <==> forall k :: 0 <= k < |store.tutorials| ==> store.tutorials[k].id != id
    ensures response.status == 404 ==> response.body == Message("Tutorial not found")
    ensures response.status != 404 ==>
      response.status == 200 && response.body.TutorialBody?
      && response.body.tutorial in store.tutorials && response.body.tutorial.id == id
  {
    match store.GetTutorial(id)
    case None => Response(404, Message("Tutorial not found"))
    case Some(t) => Response(200, TutorialBody(t))
  }

  /** The body of the 400 answer: the first issue's message and its path
      joined by '.'. Every segment of the path occurs in the field. */
  function ValidationBody(issues: seq<Issue>): (b: Body)
    requires |issues| > 0
    ensures b == FieldError(issues[0].message, Join(PathSegments(issues[0].path), '.'))
    ensures forall k :: 0 <= k < |issues[0].path| ==>
      Contains(b.field, SegmentText(issues[0].path[k]))
  {
    JoinContainsParts(PathSegments(issues[0].path), '.');
    FieldError(issues[0].message, PathText(issues[0].path))
  }

  /** An index segment's text is a decimal, so it holds no '.'. */
  lemma SegmentTextNoDot(k: PathKey)
    requires k.Key? ==> '.' !in k.name
    ensures '.' !in SegmentText(k)
  {
    if k.Index? {
      DecimalChars(k.n);
    }
  }

  /** The field of the 400 answer reads back as the path: splitting it at '.'
      gives the segments, as long as no key name holds a '.'. */
  lemma ValidationFieldSplits(issues: seq<Issue>)
    requires |issues| > 0 && |issues[0].path| > 0
    requires forall k :: 0 <= k < |issues[0].path| && issues[0].path[k].Key? ==>
      '.' !in issues[0].path[k].name
    ensures Split(ValidationBody(issues).field, '.') == PathSegments(issues[0].path)
  {
    var path := issues[0].path;
    var parts := PathSegments(path);
    forall k | 0 <= k < |parts| ensures '.' !in parts[k] {
      SegmentTextNoDot(path[k]);
    }
    SplitJoin(parts, '.');
  }

  /** Two paths that differ give different fields, when no key name holds a '.'. */
  lemma ValidationFieldOfPath(issues: seq<Issue>, others: seq<Issue>)
    requires |issues| > 0 && |issues[0].path| > 0
    requires |others| > 0 && |others[0].path| > 0
    requires forall k :: 0 <= k < |issues[0].path| && issues[0].path[k].Key? ==>
      '.' !in issues[0].path[k].name
    requires forall k :: 0 <= k < |others[0].path| && others[0].path[k].Key? ==>
      '.' !in others[0].path[k].name
    requires ValidationBody(issues).field == ValidationBody(others).field
    ensures PathSegments(issues[0].path) == PathSegments(others[0].path)
  {
    ValidationFieldSplits(issues);
    ValidationFieldSplits(others);
  }

  /** Every part occurs in the joined text. */
  lemma {:induction false} JoinContainsParts(parts: seq<string>, c: char)
    ensures forall k :: 0 <= k < |parts| ==> Contains(Join(parts, c), parts[k])
  {
    if |parts| == 1 {
      assert OccursAt(Join(parts, c), parts[0], 0);
    } else if |parts| > 1 {
      JoinContainsParts(parts[1..], c);
      var s := Join(parts, c);
      var rest := Join(parts[1..], c);
      var off := |parts[0]| + 1;
      assert s == parts[0] + [c] + rest;
      assert OccursAt(s, parts[0], 0) by { assert s[..|parts[0]|] == parts[0]; }
      forall k | 1 <= k < |parts| ensures Contains(s, parts[k]) {
        assert parts[k] == parts[1..][k - 1];
        var i :| 0 <= i <= |rest| - |parts[k]| && OccursAt(rest, parts[k], i);
        assert s[off + i..off + i + |parts[k]|] == rest[i..i + |parts[k]|];
        assert OccursAt(s, parts[k], off + i);
      }
    }
  }

  /** The create route: a valid body inserts one row and is answered with 201;
      a validation failure is answered with 400 and the first issue; a failure
      with no issue to read, or a failing insert, is thrown on. */
  method CreateHandler(store: Store, validation: Validation, insertFails: bool, now: int)
    returns (outcome: Outcome)
    requires store.Valid()
    modifies store
    ensures store.Valid()
    ensures validation.Parsed? && !insertFails ==>
      && outcome.Replied? && outcome.response.status == 201
      && outcome.response.body.TutorialBody?
      && outcome.response.body.tutorial == RowOf(validation.input, old(store.nextTutorialId), now)
      && store.tutorials == old(store.tutorials) + [outcome.response.body.tutorial]
    ensures validation.Invalid? && |validation.issues| > 0 ==>
      outcome == Replied(Response(400, ValidationBody(validation.issues)))
    ensures (validation.Invalid? && |validation.issues| == 0) || (validation.Parsed? && insertFails) ==>
      outcome == Thrown
    ensures !(validation.Parsed? && !insertFails) ==> store.tutorials == old(store.tutorials)
    ensures store.designs == old(store.designs)
  {
    match validation
    case Invalid(issues) =>
      if |issues| > 0 {
        outcome := Replied(Response(400, ValidationBody(issues)));
      } else {
        outcome := Thrown;
      }
    case Parsed(input) =>
      if insertFails {
        outcome := Thrown;
      } else {
        var row := store.CreateTutorial(input, now);
        outcome := Replied(Response(201, TutorialBody(row)));
      }
  }

  /** The five sample tutorials, in the order they are inserted. */
  const Samples: seq<NewTutorial> := [
    NewTutorial(
      "Classic French Tip",
      "https://images.unsplash.com/photo-1522337360788-8b13dee7a37e?auto=format&fit=crop&q=80&w=1000",
      "French", "Beginner",
      ["Base Coat", "Nude Polish", "White Polish", "Fine Liner Brush", "Top Coat"],
      "1. Apply base coat.\n2. Apply two coats of nude polish.\n3. Use a fine liner brush to draw the white tip, following your natural smile line.\n4. Clean up any mistakes with acetone.\n5. Seal with a glossy top coat.",
      Some("@classicnails")),
    NewTutorial(
      "Chrome Glazed Donut",
      "/attached_assets/stock_images/chrome_glazed_donut__3ce475bb.jpg",
      "Chrome", "Intermediate",
      ["Gel Base", "Sheer White Gel", "Chrome Powder", "Applicator", "No-Wipe Top Coat"],
      "1. Prep nails and apply gel base coat. Cure.\n2. Apply one coat of sheer white or milky white gel. Cure.\n3. Apply a no-wipe top coat. Cure for 30s only (half cure).\n4. Rub chrome powder onto the nail using an applicator.\n5. Dust off excess powder.\n6. Apply final top coat and cure fully.",
      Some("@haileybieber_inspo")),
    NewTutorial(
      "Tortoise Shell",
      "https://images.unsplash.com/photo-1604654894610-df63bc536371?auto=format&fit=crop&q=80&w=1000",
      "Abstract", "Intermediate",
      ["Amber Jelly Polish", "Brown Polish", "Black Polish", "Blooming Gel", "Brush"],
      "1. Apply amber jelly base. Cure.\n2. Apply blooming gel (do not cure).\n3. Dot brown polish into the wet gel to create spots. Cure.\n4. Layer more jelly polish for depth. Cure.\n5. Add smaller black dots for contrast.\n6. Top coat.",
      Some("@tortienails")),
    NewTutorial(
      "Checkerboard Vibes",
      "https://images.unsplash.com/photo-1516975080664-ed2fc6a32937?auto=format&fit=crop&q=80&w=1000",
      "Abstract", "Pro",
      ["Base Color", "Contrast Color", "Striping Tape", "Detail Brush"],
      "1. Apply base color. Dry completely.\n2. Use a detail brush or striping tape to create a grid.\n3. Fill in alternating squares with contrast color.\n4. Cure or let dry.\n5. Top coat.",
      Some("@vanscheckers")),
    NewTutorial(
      "Blush Aura",
      "https://images.unsplash.com/photo-1599692613955-32cb7c64eb07?auto=format&fit=crop&q=80&w=1000",
      "Aura", "Intermediate",
      ["Base Color", "Eyeshadow/Pigment", "Sponge", "Matte Top Coat"],
      "1. Apply base color (usually light/nude). Cure.\n2. Use a sponge to dab pigment in the center of the nail, fading outwards.\n3. Repeat to build intensity in the center.\n4. Seal with top coat.",
      Some("@auravibes"))
  ]

  /** The row an insert of `input` with serial id `id` at time `now` produces. */
  function RowOf(input: NewTutorial, id: int, now: int): Tutorial {
    Tutorial(id, input.title, input.imageSource, input.styleCategory, input.difficultyLevel,
      input.toolsRequired, input.tutorialContent, input.creatorCredit, Some(now))
  }

  /** The rows of the first `n` samples, numbered from `first`. */
  function SampleRows(first: int, n: nat, now: int): (rows: seq<Tutorial>)
    requires n <= |Samples|
    ensures |rows| == n
    ensures forall k :: 0 <= k < n ==> rows[k].id == first + k && rows[k].title == Samples[k].title
  {
    seq(n, k requires 0 <= k < n => RowOf(Samples[k], first + k, now))
  }

  /** `seedDatabase`: an empty table receives the five samples in their listed
      order; a table with any row is left alone. */
  method Seed(store: Store, now: int)
    requires store.Valid()
    modifies store
    ensures store.Valid()
    ensures old(store.tutorials) == [] ==>
      store.tutorials == SampleRows(old(store.nextTutorialId), |Samples|, now)
    ensures old(store.tutorials) != [] ==>
      store.tutorials == old(store.tutorials) && store.nextTutorialId == old(store.nextTutorialId)
    ensures store.tutorials != []
    ensures store.designs == old(store.designs)
  {
    var existing := store.GetTutorials(None);
    if |existing| == 0 {
      for i := 0 to |Samples|
        invariant store.Valid()
        invariant store.nextTutorialId == old(store.nextTutorialId) + i
        invariant store.tutorials == SampleRows(old(store.nextTutorialId), i, now)
        invariant store.designs == old(store.designs)
      {
        var row := store.CreateTutorial(Samples[i], now);
        assert SampleRows(old(store.nextTutorialId), i + 1, now)
          == SampleRows(old(store.nextTutorialId), i, now) + [RowOf(Samples[i], old(store.nextTutorialId) + i, now)];
      }
    }
  }

  /** Seeding is idempotent: seeding twice leaves the table as seeding once. */
  method SeedTwice(store: Store, now: int)
    requires store.Valid()
    modifies store
    ensures old(store.tutorials) == [] ==>
      store.tutorials == SampleRows(old(store.nextTutorialId), |Samples|, now)
    ensures old(store.tutorials) != [] ==> store.tutorials == old(store.tutorials)
  {
    Seed(store, now);
    Seed(store, now);
  }

  /** The sample rows carry the five titles in their listed order. */
  lemma SampleTitles(first: int, now: int)
    ensures var rows := SampleRows(first, |Samples|, now);
      && |rows| == 5
      && rows[0].title == "Classic French Tip" && rows[1].title == "Chrome Glazed Donut"
      && rows[2].title == "Tortoise Shell" && rows[3].title == "Checkerboard Vibes"
      && rows[4].title == "Blush Aura"
  {
  }
}
