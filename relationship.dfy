/** The relationship test (`computeRelationship`): dimensions ranked by raw score, a `single`
    result keyed by the leading dimension, or a `mix` result rendered from templates when the
    two leading dimensions are within the mix threshold; then the share caption and the share
    payload. */
module Relationship {
  import opened Wrappers
  import opened Text
  import opened JsValue
  import opened Config
  import opened Template
  import opened Scoring
  import opened Ranking

  /** The rendered `poster` part of the mix templates. */
  datatype PosterContent = PosterContent(
    title: string, subtitle: string, lines: seq<string>, hashtags: seq<string>, footer: string)

  /** The rendered mix templates. */
  datatype MixContent = MixContent(
    title: string, subtitle: string, body: seq<string>, shareCopy: string, poster: Option<PosterContent>)

  /** A single result shows the authored entry itself; a mix result shows rendered templates. */
  datatype Content = SingleContent(t: SingleType) | MixedContent(m: MixContent)

  /** What `computeRelationship` returns. */
  datatype RankedResult = RankedResult(
    kind: string,
    code: string,
    primaryCode: string,
    secondaryCode: string,
    diff: int,
    dims: seq<DimScore>,
    content: Content,
    caption: string,
    hashtags: string,
    payload: SharePayload)

  /** The raw score floor and range of the relationship test: three questions per dimension on
      the 1..5 scale. */
  const RawFloor := 3
  const RawRange := 12

  /** `test.scoring?.ranking?.mixThresholdRawDiff ?? 2`. */
  function MixThreshold(test: RankedTest): int {
    test.mixThreshold.GetOr(2)
  }

  function Raw(d: DimScore): int { d.raw }

  /** The template context `{ primary, secondary }`. */
  function MixContext(primary: JValue, secondary: JValue): JValue {
    JObj(map["primary" := primary, "secondary" := secondary])
  }

  /** Rendering every string of the mix templates against one context. A list that is absent
      renders as the empty list; absent poster hashtags and footer read as [] and "". */
  function RenderMix(mt: MixTemplates, ctx: JValue): (c: MixContent)
    ensures |c.body| == if mt.body.Some? then |mt.body.value| else 0
    ensures c.poster.Some? <==> mt.poster.Some?
  {
    var poster := match mt.poster
      case None => None
      case Some(p) => Some(PosterContent(Render(p.title, ctx), Render(p.subtitle, ctx),
                                         RenderAll(p.lines, ctx), p.hashtags, p.footer));
    MixContent(Render(mt.title, ctx), Render(mt.subtitle, ctx), RenderAll(mt.body, ctx),
               Render(mt.shareCopy, ctx), poster)
  }

  /** The default caption template. */
  const DefaultCaption := "我的结果：" + Slot("resultTitle") + "\n" + Slot("hashtags")

  /** The share caption: the first caption template rendered with the result title (its
      "安全感密码：" prefix removed), the leading dimension's core need and the hashtag line. */
  function Caption(test: RankedTest, resultTitle: string, primaryCode: string): string {
    Render(FirstOr(test.captionTemplates, DefaultCaption), JObj(CaptionFields(test, resultTitle, primaryCode)))
  }

  /** The caption's template context. */
  function CaptionFields(test: RankedTest, resultTitle: string, primaryCode: string): map<string, JValue> {
    map["resultTitle" := JStr(ReplaceFirst(resultTitle, "安全感密码：", "")),
        "needLine" := JStr(NeedLine(test, primaryCode)),
        "hashtags" := JStr(HashtagLine(test.defaultHashtags))]
  }

  /** The leading dimension's `coreNeed`, or "" when the code has no definition. */
  function NeedLine(test: RankedTest, primaryCode: string): string {
    match FindDim(test.dimensions, primaryCode)
    case Some(d) => d.coreNeed
    case None => ""
  }

  /** Index, in `dims`, of the leading dimension. */
  function PrimaryIndex(dims: seq<DimScore>): nat
    requires |dims| >= 2
  {
    FirstMax(dims, Raw)
  }

  /** The runner-up: the leading dimension among the others. */
  function Secondary(dims: seq<DimScore>): DimScore
    requires |dims| >= 2
  {
    var rest := RemoveAt(dims, PrimaryIndex(dims));
    rest[FirstMax(rest, Raw)]
  }

  /** The first two entries of `Object.values(dims).sort((a, b) => b.raw - a.raw)`: the
      earliest dimension with the highest raw score, then the earliest of the others with the
      highest raw score among them. */
  function Leaders(dims: seq<DimScore>): (r: (DimScore, DimScore))
    requires |dims| >= 2
    ensures r.0 == dims[PrimaryIndex(dims)] && r.1 == Secondary(dims)
  {
    SortDescHead(dims, Raw);
    var sorted := SortDesc(dims, Raw);
    (sorted[0], sorted[1])
  }

  /** Classification of a finished `dims` table. Fewer than two dimensions, or a single result
      whose code has no authored entry, end in a TypeError as in the source. */
  function Classify(test: RankedTest, dims: seq<DimScore>, nickname: string, ts: string): (r: Outcome<RankedResult>)
    ensures |dims| < 2 ==> r.TypeError?
    ensures |dims| >= 2 ==>
              var p := dims[PrimaryIndex(dims)];
              var s := Secondary(dims);
              var d := p.raw - s.raw;
              var mix := d <= MixThreshold(test);
              d >= 0 &&
              (r.TypeError? <==> !mix && p.code !in test.singleTypes) &&
              (r.Ok? ==>
                 r.value.primaryCode == p.code && r.value.secondaryCode == s.code &&
                 r.value.diff == d &&
                 (r.value.kind == "mix" <==> mix) &&
                 (r.value.kind == "single" <==> !mix) &&
                 r.value.code == (if mix then p.code + "x" + s.code else p.code) &&
                 r.value.content ==
                   (if mix then MixedContent(RenderMix(test.mixTemplates, MixContext(DimValue(p.meta), DimValue(s.meta))))
                    else SingleContent(test.singleTypes[p.code])) &&
                 r.value.dims == dims &&
                 r.value.hashtags == HashtagLine(test.defaultHashtags) &&
                 r.value.caption ==
                   Caption(test, if mix then RenderMix(test.mixTemplates, MixContext(DimValue(p.meta), DimValue(s.meta))).title
                                 else OrElse(test.singleTypes[p.code].posterTitle, test.singleTypes[p.code].name), p.code) &&
                 r.value.payload == RelationshipPayload(1, nickname, ts, r.value.kind, p.code, s.code, Some(d), Dims100(dims)))
  {
    if |dims| < 2 then TypeError
    else
      var (primary, secondary) := Leaders(dims);
      var diff := primary.raw - secondary.raw;
      var hashtags := HashtagLine(test.defaultHashtags);
      if diff > MixThreshold(test) then
        if primary.code !in test.singleTypes then TypeError
        else
          var t := test.singleTypes[primary.code];
          var title := OrElse(t.posterTitle, t.name);
          Ok(RankedResult("single", primary.code, primary.code, secondary.code, diff, dims, SingleContent(t),
                          Caption(test, title, primary.code), hashtags, RelationshipPayload(1, nickname, ts, "single", primary.code, secondary.code, Some(diff), Dims100(dims))))
      else
        var ctx := MixContext(DimValue(primary.meta), DimValue(secondary.meta));
        var content := RenderMix(test.mixTemplates, ctx);
        Ok(RankedResult("mix", primary.code + "x" + secondary.code, primary.code, secondary.code, diff, dims,
                        MixedContent(content), Caption(test, content.title, primary.code), hashtags, RelationshipPayload(1, nickname, ts, "mix", primary.code, secondary.code, Some(diff), Dims100(dims))))
  }

  /** What `computeRelationship(test, answers)` returns, with `state.nickname` and the clock
      reading passed in. */
  function RelationshipSpec(test: RankedTest, answers: seq<Option<int>>, nickname: string, ts: string)
    : Outcome<RankedResult>
  {
    match DimsSpec(test.dimensions, test.questions, answers, RawFloor, RawRange)
    case TypeError => TypeError
    case Ok(dims) => Classify(test, dims, nickname, ts)
  }

  /** `computeRelationship`: the scoring loops, then the classification. */
  method ComputeRelationship(test: RankedTest, answers: seq<Option<int>>, nickname: string, ts: string)
    returns (r: Outcome<RankedResult>)
    ensures r == RelationshipSpec(test, answers, nickname, ts)
  {
    var dims := BuildDims(test.dimensions, test.questions, answers, RawFloor, RawRange);
    if dims.TypeError? {
      return TypeError;
    }
    r := Classify(test, dims.value, nickname, ts);
  }

  /** The scores behind a relationship result: one entry per defined dimension code in
      definition order, each holding the weighted sum of its own questions' answers and
      `Math.round((raw - 3) / 12 * 100)`, unclamped. */
  lemma RelationshipScores(test: RankedTest, answers: seq<Option<int>>, nickname: string, ts: string)
    requires RelationshipSpec(test, answers, nickname, ts).Ok?
    ensures var r := RelationshipSpec(test, answers, nickname, ts).value;
            var codes := Codes(test.dimensions);
            |r.dims| == |codes| &&
            forall k :: 0 <= k < |codes| ==>
              r.dims[k].code == codes[k] &&
              r.dims[k].raw == DimSum(codes[k], test.questions, answers, |test.questions|) &&
              r.dims[k].to100 == Round((r.dims[k].raw - RawFloor) * 100, RawRange)
  {
  }

  /** The inclusive boundary of the mix rule: a lead of exactly the threshold is a mix, one
      more is a single result. */
  lemma MixBoundary(test: RankedTest, dims: seq<DimScore>, nickname: string, ts: string)
    requires |dims| >= 2
    requires Classify(test, dims, nickname, ts).Ok?
    ensures var p := dims[PrimaryIndex(dims)];
            var d := p.raw - Secondary(dims).raw;
            (d == MixThreshold(test) ==> Classify(test, dims, nickname, ts).value.kind == "mix") &&
            (d == MixThreshold(test) + 1 ==> Classify(test, dims, nickname, ts).value.kind == "single")
  {
  }

  /** Without an authored caption template the caption is "我的结果：", the result title
      without its "安全感密码：" prefix, a line break and the hashtag line. */
  lemma DefaultCaptionText(test: RankedTest, resultTitle: string, primaryCode: string)
    requires test.captionTemplates == [] || test.captionTemplates[0] == ""
    ensures Caption(test, resultTitle, primaryCode) ==
              "我的结果：" + ReplaceFirst(resultTitle, "安全感密码：", "") + "\n" + HashtagLine(test.defaultHashtags)
  {
    assert IsWord("resultTitle") && IsWord("hashtags");
    RenderTwoSlots(CaptionFields(test, resultTitle, primaryCode), FirstOr(test.captionTemplates, DefaultCaption),
                   "我的结果：", "resultTitle", "\n", "hashtags");
  }

  /** A caption template `{{needLine}}` gives the leading dimension's core need, found by code
      among the definitions, or "" when there is none. */
  lemma NeedLineCaption(test: RankedTest, resultTitle: string, primaryCode: string)
    requires test.captionTemplates != [] && test.captionTemplates[0] == Slot("needLine")
    ensures FindDim(test.dimensions, primaryCode).None? ==> Caption(test, resultTitle, primaryCode) == ""
    ensures FindDim(test.dimensions, primaryCode).Some? ==>
              Caption(test, resultTitle, primaryCode) == FindDim(test.dimensions, primaryCode).value.coreNeed
  {
    assert IsWord("needLine");
    RenderOneSlot(CaptionFields(test, resultTitle, primaryCode), FirstOr(test.captionTemplates, DefaultCaption), "needLine");
  }
}
