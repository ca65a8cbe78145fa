/** The decision rules of the `check` chat command: which queries are looked up,
    which colour a confidence gets, which embed is built from a lookup, and which
    posts follow it. The price statistics themselves (box plot, fair-price
    rounding, confidence score and message) come from collaborators and enter
    here as already-rendered values. */
module Check {
  import opened JsString

  // ---------------------------------------------------------------------------
  // Query validation

  /** `nonASCII`: some code point of the spread string has a first code unit
      above 127. */
  predicate NonAscii(s: JsStr) {
    var cps := Spread(s);
    exists i :: 0 <= i < |cps| && cps[i][0] > 127
  }

  /** Independent reading of "non-ASCII": some code unit is above 127. */
  predicate HasUnitAbove127(s: JsStr) {
    exists u :: u in s && u > 127
  }

  /** Splitting into code points neither hides nor invents a unit above 127:
      a surrogate pair consists of two units above 127, every other code point
      of one unit. */
  lemma {:induction false} NonAsciiIffUnitAbove127(s: JsStr)
    ensures NonAscii(s) <==> HasUnitAbove127(s)
    decreases |s|
  {
    if s != [] {
      var n := HeadLength(s);
      var head, tail := s[..n], s[n..];
      NonAsciiIffUnitAbove127(tail);
      assert s == head + tail;
      var cps, rest := Spread(s), Spread(tail);
      assert cps == [head] + rest;
      if NonAscii(tail) {
        var j :| 0 <= j < |rest| && rest[j][0] > 127;
        assert cps[j + 1] == rest[j];
        var u :| u in tail && u > 127;
        assert u in s;
      }
      if NonAscii(s) {
        var i :| 0 <= i < |cps| && cps[i][0] > 127;
        if i == 0 {
          assert s[0] in s;
        } else {
          assert rest[i - 1] == cps[i];
        }
      }
      if HasUnitAbove127(s) {
        var u :| u in s && u > 127;
        assert u in head || u in tail;
        if u in head {
          assert head[0] == s[0] && head[0] > 127;
          assert cps[0][0] > 127;
        }
      }
    }
  }

  /** An all-ASCII string is never reported as non-ASCII. */
  lemma AsciiIsNotNonAscii(s: JsStr)
    requires forall k :: 0 <= k < |s| ==> s[k] <= 127
    ensures !NonAscii(s)
  {
    NonAsciiIffUnitAbove127(s);
  }

  const MinQueryLength := 10
  const MaxQueryLength := 50

  /** What `execute` does with a query: reject it for its length, reject it for a
      non-ASCII character, or look it up. */
  datatype Verdict = LengthError | NonAsciiError | Accepted

  /** The validation branch of `execute`. The length rule is tried first. */
  function Validate(query: JsStr): (v: Verdict)
    ensures v == LengthError <==> !(MinQueryLength <= |query| <= MaxQueryLength)
    ensures v == NonAsciiError <==>
      MinQueryLength <= |query| <= MaxQueryLength && HasUnitAbove127(query)
    ensures v == Accepted <==>
      MinQueryLength <= |query| <= MaxQueryLength && !HasUnitAbove127(query)
  {
    NonAsciiIffUnitAbove127(query);
    if |query| < MinQueryLength || |query| > MaxQueryLength then LengthError
    else if NonAscii(query) then NonAsciiError
    else Accepted
  }

  /** The query `execute` validates is the arguments joined by single spaces; it
      is accepted exactly when the arguments with their separators fit the
      length window and no argument holds a unit above 127. */
  lemma ValidateArgs(args: seq<JsStr>)
    ensures Validate(Join(args)) == Accepted <==>
      && MinQueryLength <= TotalLength(args) + |args| - 1 <= MaxQueryLength
      && forall i :: 0 <= i < |args| ==> !HasUnitAbove127(args[i])
  {
    if |args| > 0 {
      JoinLength(args);
    }
    var q := Join(args);
    if HasUnitAbove127(q) {
      var u :| u in q && u > 127;
      JoinUnits(args, u);
    }
    if exists i :: 0 <= i < |args| && HasUnitAbove127(args[i]) {
      var i :| 0 <= i < |args| && HasUnitAbove127(args[i]);
      var u :| u in args[i] && u > 127;
      JoinUnits(args, u);
    }
  }

  // ---------------------------------------------------------------------------
  // Colours

  /** The embed colours the command uses. `Value` is the number the embed
      library stores for the hex string the source passes to `setColor`. */
  datatype Colour = Green | Yellow | Orange | Red | Black {
    function Value(): nat {
      match this
      case Green => 0x78b159   // '#78b159'
      case Yellow => 0xfdcb58  // '#fdcb58'
      case Orange => 0xffac33  // '#ffac33'
      case Red => 0xdd2e44     // '#dd2e44'
      case Black => 0          // '#000000', the error colour
    }
  }

  /** The order of the four confidence bands, lowest first. The error colour
      is not a band and has no rank. */
  function Rank(c: Colour): nat
    requires c != Black
  {
    match c
    case Red => 0
    case Orange => 1
    case Yellow => 2
    case Green => 3
  }

  /** `getColour`: the band of a confidence. */
  function GetColour(confidence: real): (c: Colour)
    ensures c != Black && c.Value() != 0
    ensures c == Green <==> confidence >= 80.0
    ensures c == Yellow <==> 60.0 <= confidence < 80.0
    ensures c == Orange <==> 40.0 <= confidence < 60.0
    ensures c == Red <==> confidence < 40.0
  {
    if confidence >= 80.0 then Green
    else if confidence >= 60.0 then Yellow
    else if confidence >= 40.0 then Orange
    else Red
  }

  /** Reference definition of the band: how many of the thresholds 40, 60 and 80
      the confidence reaches. */
  function ThresholdsReached(confidence: real): nat {
    (if confidence >= 40.0 then 1 else 0)
    + (if confidence >= 60.0 then 1 else 0)
    + (if confidence >= 80.0 then 1 else 0)
  }

  lemma GetColourRank(confidence: real)
    ensures Rank(GetColour(confidence)) == ThresholdsReached(confidence)
  {
  }

  /** Raising the confidence never moves it to a lower band. */
  lemma GetColourMonotone(a: real, b: real)
    requires a <= b
    ensures Rank(GetColour(a)) <= Rank(GetColour(b))
  {
    GetColourRank(a);
    GetColourRank(b);
  }

  // ---------------------------------------------------------------------------
  // Embeds

  /** A field value: text, or the confidence shown as a percentage (its
      two-decimal rendering is not modelled). */
  datatype FieldValue = Text(text: string) | Percent(confidence: real)

  datatype Field = Field(name: string, value: FieldValue, inline: bool)

  /** The parts of a Discord embed the command sets, apart from its timestamp. */
  datatype Embed = Embed(colour: nat, fields: seq<Field>)

  const NotApplicable := "N/A"

  /** `createEmbedBox`. */
  function CreateEmbedBox(fairPriceRange: string, median: string, average: string,
                          confidence: real, confidenceMsg: string): (e: Embed)
    ensures e.colour == 0 <==> fairPriceRange == NotApplicable
    ensures |e.fields| == if fairPriceRange == NotApplicable then 1 else 5
  {
    if fairPriceRange == NotApplicable then
      Embed(Black.Value(), [Field("Error", Text(confidenceMsg), false)])
    else
      Embed(GetColour(confidence).Value(),
            [ Field("Fair price", Text(fairPriceRange), true),
              Field("Median", Text(median), true),
              Field("Average", Text(average), true),
              Field("Confidence", Percent(confidence), true),
              Field("Notes", Text(confidenceMsg), false) ])
  }

  /** The error embed: black, with the message as its only field. */
  lemma ErrorEmbedShape(median: string, average: string, confidence: real, confidenceMsg: string)
    ensures var e := CreateEmbedBox(NotApplicable, median, average, confidence, confidenceMsg);
      && e.colour == Black.Value()
      && e.fields == [Field("Error", Text(confidenceMsg), false)]
  {
  }

  /** The result embed: five fields in a fixed order, coloured by the band of
      the confidence, each carrying the value it is named after. */
  lemma ResultEmbedShape(fairPriceRange: string, median: string, average: string,
                         confidence: real, confidenceMsg: string)
    requires fairPriceRange != NotApplicable
    ensures var e := CreateEmbedBox(fairPriceRange, median, average, confidence, confidenceMsg);
      && e.colour == GetColour(confidence).Value()
      && |e.fields| == 5
      && e.fields[0].name == "Fair price" && e.fields[0].value == Text(fairPriceRange)
      && e.fields[1].name == "Median" && e.fields[1].value == Text(median)
      && e.fields[2].name == "Average" && e.fields[2].value == Text(average)
      && e.fields[3].name == "Confidence" && e.fields[3].value == Percent(confidence)
      && e.fields[4].name == "Notes" && e.fields[4].value == Text(confidenceMsg)
  {
  }

  // ---------------------------------------------------------------------------
  // Looking up a query

  /** What the marketplace collaborators yield for a query: nothing, or the
      rendered fair-price bounds, median and outlier-excluded average (each
      already discounted and rounded) with the confidence and its message. */
  datatype Lookup =
    | NotFound
    | Found(lowerFair: string, upperFair: string, medianFair: string, averageFair: string,
            confidence: real, confidenceMsg: string)

  const Pound: char := '\U{00A3}'

  /** The text of the error embed when nothing was found; `prefix` is the
      configured command prefix. */
  function NotFoundMessage(prefix: string): string {
    "No items found for above query\nMake sure to include manufacturer for best results ("
    + prefix + "help for more info)\nPlease try another search term\n"
    + "If you feel this is in error, DM <@135464598999400448>"
  }

  /** The fair-price range shown for a found lookup, `£<lower> - £<upper>`. */
  function FairPriceRange(lower: string, upper: string): string {
    [Pound] + lower + " - " + [Pound] + upper
  }

  /** `getEmbedBox`, given the lookup's outcome. */
  function GetEmbedBox(lookup: Lookup, prefix: string): (e: Embed)
    ensures lookup.NotFound? ==>
      e == CreateEmbedBox(NotApplicable, NotApplicable, NotApplicable, 0.0, NotFoundMessage(prefix))
    ensures lookup.Found? ==>
      e == CreateEmbedBox(FairPriceRange(lookup.lowerFair, lookup.upperFair),
                          [Pound] + lookup.medianFair, [Pound] + lookup.averageFair,
                          lookup.confidence, lookup.confidenceMsg)
    ensures lookup.Found? ==> e.colour == GetColour(lookup.confidence).Value()
    ensures e.colour == 0 <==> lookup.NotFound?
  {
    match lookup
    case NotFound =>
      CreateEmbedBox(NotApplicable, NotApplicable, NotApplicable, 0.0, NotFoundMessage(prefix))
    case Found(lower, upper, median, average, confidence, msg) =>
      var range := FairPriceRange(lower, upper);
      assert range[0] != NotApplicable[0];
      CreateEmbedBox(range, [Pound] + median, [Pound] + average, confidence, msg)
  }

  // ---------------------------------------------------------------------------
  // The command

  datatype Reaction = Tick | Cross

  /** What `execute` posts to the channel, in order. The texts of the help
      message and the information notes are not modelled. */
  datatype Post =
    | LengthHelp
    | NonAsciiNotice
    | ResultsFor(query: JsStr)
    | SendEmbed(embed: Embed)
    | React(reaction: Reaction)
    | InfoNotes

  /** `execute` for the arguments `args`, where `lookup` is what the
      collaborators find for the joined query. */
  function Execute(args: seq<JsStr>, lookup: Lookup, prefix: string): (posts: seq<Post>)
    ensures Validate(Join(args)) == LengthError ==> posts == [LengthHelp]
    ensures Validate(Join(args)) == NonAsciiError ==> posts == [NonAsciiNotice]
    ensures Validate(Join(args)) == Accepted ==>
      posts == [ResultsFor(Join(args)), SendEmbed(GetEmbedBox(lookup, prefix))]
               + if lookup.Found? then [React(Tick), React(Cross), InfoNotes] else []
  {
    var query := Join(args);
    match Validate(query)
    case LengthError => [LengthHelp]
    case NonAsciiError => [NonAsciiNotice]
    case Accepted =>
      var embed := GetEmbedBox(lookup, prefix);
      [ResultsFor(query), SendEmbed(embed)]
      + if embed.colour != 0 then [React(Tick), React(Cross), InfoNotes] else []
  }

  /** Both reactions and the information notes are posted exactly when the
      query was accepted and results were found; they then are the last three
      posts, tick first, then cross, then the notes. */
  lemma FollowUpExactlyWhenFound(args: seq<JsStr>, lookup: Lookup, prefix: string)
    ensures var posts := Execute(args, lookup, prefix);
      && (React(Tick) in posts <==> Validate(Join(args)) == Accepted && lookup.Found?)
      && (React(Cross) in posts <==> Validate(Join(args)) == Accepted && lookup.Found?)
      && (InfoNotes in posts <==> Validate(Join(args)) == Accepted && lookup.Found?)
      && (Validate(Join(args)) == Accepted && lookup.Found? ==>
            |posts| == 5 && posts[2..] == [React(Tick), React(Cross), InfoNotes])
  {
    var posts := Execute(args, lookup, prefix);
    var v := Validate(Join(args));
    var head := [ResultsFor(Join(args)), SendEmbed(GetEmbedBox(lookup, prefix))];
    var tail := if lookup.Found? then [React(Tick), React(Cross), InfoNotes] else [];
    if v == Accepted {
      assert posts == head + tail;
      assert React(Tick) !in head && React(Cross) !in head && InfoNotes !in head;
      assert posts[2..] == tail;
    } else {
      assert posts == [LengthHelp] || posts == [NonAsciiNotice];
    }
  }
}
