/** The test definitions the engine reads and the share payloads it writes. A string field
    that the source reads as `field || default` holds "" when the field is absent or empty;
    a list read as `list || []` holds [] in both cases. */
module Config {
  import opened Wrappers
  import opened JsValue
  import Text

  /** One scoring axis. `extra` holds whatever other fields the definition gives it. */
  datatype Dimension = Dimension(
    code: string,
    name: string,
    meaning: string,
    coreNeed: string,
    microFix: seq<string>,
    extra: map<string, JValue>)

  /** The dimension as the object that templates see, e.g. `{{primary.name}}`. */
  function DimValue(d: Dimension): (r: JValue)
    ensures r.JObj? && "code" in r.fields && r.fields["code"] == JStr(d.code)
    ensures "name" in r.fields && r.fields["name"] == JStr(d.name)
  {
    JObj(d.extra["code" := JStr(d.code)]["name" := JStr(d.name)]["meaning" := JStr(d.meaning)]
               ["coreNeed" := JStr(d.coreNeed)]["microFix" := StrArray(d.microFix)])
  }

  /** A dimension that may be missing, as the result of `dimensions.find(...)`. */
  function MaybeDimValue(d: Option<Dimension>): JValue {
    match d
    case Some(x) => DimValue(x)
    case None => JUndefined
  }

  /** A question: the dimension it scores, its weight (0 when absent, so that `weight || 1`
      is 1) and whether it is reverse-scored. */
  datatype Question = Question(dim: string, weight: int, reverse: bool)

  /** One entry of the `dims` table: the raw sum, the 0-100 value and the definition. */
  datatype DimScore = DimScore(code: string, raw: int, to100: int, meta: Dimension)

  /** `dimensions.find(d => d.code === code)`. */
  function FindDim(ds: seq<Dimension>, code: string): (r: Option<Dimension>)
    ensures r.None? <==> forall k :: 0 <= k < |ds| ==> ds[k].code != code
    ensures r.Some? ==> exists k :: 0 <= k < |ds| && ds[k] == r.value &&
                          r.value.code == code && forall j :: 0 <= j < k ==> ds[j].code != code
  {
    if ds == [] then None
    else if ds[0].code == code then Some(ds[0])
    else
      var r := FindDim(ds[1..], code);
      if r.Some? then
        var k :| 0 <= k < |ds[1..]| && ds[1..][k] == r.value && r.value.code == code &&
                 forall j :: 0 <= j < k ==> ds[1..][j].code != code;
        assert ds[k + 1] == r.value;
        r
      else r
  }

  /** `arr[0] || fallback` for a list of strings. */
  function FirstOr(xs: seq<string>, fallback: string): (r: string)
    ensures r == fallback || (xs != [] && r == xs[0])
    ensures (xs != [] && xs[0] != "") ==> r == xs[0]
  {
    if xs != [] && xs[0] != "" then xs[0] else fallback
  }

  /** `s || fallback` for a string. */
  function OrElse(s: string, fallback: string): (r: string)
    ensures s != "" ==> r == s
    ensures s == "" ==> r == fallback
  {
    if s != "" then s else fallback
  }

  // ---- the relationship test: ranked dimensions, single or mix result ----

  /** An authored single-type result; `posterTitle` is `poster.title`. */
  datatype SingleType = SingleType(name: string, posterTitle: string, shareCopy: string)

  datatype PosterTemplates = PosterTemplates(
    title: string, subtitle: string, lines: Option<seq<string>>, hashtags: seq<string>, footer: string)

  datatype MixTemplates = MixTemplates(
    title: string, subtitle: string, body: Option<seq<string>>, shareCopy: string,
    poster: Option<PosterTemplates>)

  datatype RankedTest = RankedTest(
    dimensions: seq<Dimension>,
    questions: seq<Question>,
    mixThreshold: Option<int>,
    singleTypes: map<string, SingleType>,
    mixTemplates: MixTemplates,
    defaultHashtags: seq<string>,
    captionTemplates: seq<string>)

  // ---- the emotional test: index, tier and archetype ----

  /** An index tier; `labelText` is its `label`. */
  datatype Tier = Tier(min: int, max: int, labelText: string)

  /** One comparison `dim100[dim] op value`. */
  datatype Cond = Cond(dim: string, op: string, value: int)

  datatype Archetype = Archetype(code: string, name: string, all: seq<Cond>, any: seq<Cond>, repair: seq<string>)

  /** `personalizationChips`; "" where a template is absent. */
  datatype ChipTemplates = ChipTemplates(driverLine: string, weakLine: string, eliLine: string)

  datatype IndexTest = IndexTest(
    dimensions: seq<Dimension>,
    questions: seq<Question>,
    tiers: seq<Tier>,
    archetypes: seq<Archetype>,
    driverToArchetype: map<string, string>,
    chips: ChipTemplates,
    defaultHashtags: seq<string>,
    captionTemplates: seq<string>)

  /** The two built-in tests, `tests.relationship` and `tests.emotional`. */
  datatype Tests = Tests(relationship: RankedTest, emotional: IndexTest)

  // ---- share payloads ----

  /** The payload objects that a share link carries, as `JSON.parse` gives them back. A
      payload whose `testKey` is neither test (or that is not an object) is `OtherPayload`. */
  datatype SharePayload =
    | RelationshipPayload(
        v: int, nickname: string, ts: string, kind: string, primary: string, secondary: string,
        diff: Option<int>, dims100: seq<(string, int)>)
    | EmotionalPayload(
        v: int, nickname: string, ts: string, eli: int, tier: string, archetypeCode: string,
        driver: string, weak: string, dim100: seq<(string, int)>)
    | OtherPayload

  /** `arr.join(" ")` for the hashtag line. */
  function HashtagLine(tags: seq<string>): string {
    Text.Join(tags, " ")
  }
}
