/** Share links: a result's payload travels as `b64urlEncode(JSON.stringify(payload))`, and
    `loadFromShare` rebuilds the displayed result from the payload alone, re-rendering its copy
    from the test definitions. JSON text is not modelled: `stringify` and `parse` are passed in,
    and `parse` answers None where `JSON.parse` throws. */
module Share {
  import opened Wrappers
  import opened Text
  import opened JsValue
  import opened Config
  import opened Template
  import opened Scoring
  import Base64Url
  import Ranking
  import R = Relationship
  import E = Emotional

  /** An entry of the rebuilt `dims` table: the score from the payload, raw 0, and the
      definition found by code (if any). */
  datatype ViewDim = ViewDim(code: string, to100: int, raw: int, meta: Option<Dimension>)

  /** A relationship result rebuilt from a payload. */
  datatype RankedView = RankedView(
    kind: string,
    code: string,
    primaryCode: string,
    secondaryCode: string,
    diff: int,
    dims: seq<ViewDim>,
    content: R.Content,
    caption: string,
    hashtags: string,
    payload: SharePayload)

  /** An emotional result rebuilt from a payload; it has no exhaustion or protection value. */
  datatype IndexView = IndexView(
    dim100: seq<(string, int)>,
    eli: int,
    tier: string,
    driver: string,
    driverMeta: Option<Dimension>,
    weak: string,
    weakMeta: Option<Dimension>,
    archetype: Option<Archetype>,
    chips: E.Chips,
    caption: string,
    hashtags: string,
    payload: SharePayload)

  datatype Shown = ShownRanked(ranked: RankedView) | ShownIndex(index: IndexView)

  /** The token a share link carries for a payload. */
  function Token(payload: SharePayload, stringify: SharePayload -> string): string {
    Base64Url.Encode(stringify(payload))
  }

  /** Decoding a token and parsing the JSON text; None where either step throws. */
  function DecodePayload(share: string, parse: string -> Option<SharePayload>): Option<SharePayload> {
    match Base64Url.DecodeSpec(share)
    case None => None
    case Some(text) => parse(text)
  }

  /** A payload travels unchanged through a token, whenever parsing reads back what
      stringifying wrote. */
  lemma TokenRoundTrip(payload: SharePayload, stringify: SharePayload -> string, parse: string -> Option<SharePayload>)
    requires parse(stringify(payload)) == Some(payload)
    ensures DecodePayload(Token(payload, stringify), parse) == Some(payload)
    ensures forall k :: 0 <= k < |Token(payload, stringify)| ==> Base64Url.IsUrlSafe(Token(payload, stringify)[k])
  {
    Base64Url.DecodeEncode(stringify(payload));
  }

  /** The rebuilt `dims` table. */
  function ViewDims(ds: seq<Dimension>, dims100: seq<(string, int)>): (r: seq<ViewDim>)
    ensures |r| == |dims100|
    ensures forall k :: 0 <= k < |r| ==> r[k].code == dims100[k].0 && r[k].to100 == dims100[k].1 && r[k].raw == 0
  {
    seq(|dims100|, k requires 0 <= k < |dims100| => ViewDim(dims100[k].0, dims100[k].1, 0, FindDim(ds, dims100[k].0)))
  }

  /** The relationship branch of `loadFromShare`. The result is a mix when the payload says so
      or when its `diff` (99 if absent) is within the threshold; a single result whose code
      has no authored entry throws when its share copy is read. */
  function ReconstructRanked(test: RankedTest, p: SharePayload): (r: Outcome<RankedView>)
    requires p.RelationshipPayload?
    ensures var mix := p.kind == "mix" || p.diff.GetOr(99) <= R.MixThreshold(test);
            (r.TypeError? <==> !mix && p.primary !in test.singleTypes) &&
            (r.Ok? ==> r.value.primaryCode == p.primary && r.value.secondaryCode == p.secondary &&
                       (r.value.kind == "mix" <==> mix) && r.value.payload == p)
  {
    var primaryMeta := FindDim(test.dimensions, p.primary);
    var secondaryMeta := FindDim(test.dimensions, p.secondary);
    var isMix := p.kind == "mix" || p.diff.GetOr(99) <= R.MixThreshold(test);
    var dims := ViewDims(test.dimensions, p.dims100);
    var hashtags := HashtagLine(test.defaultHashtags);
    if !isMix then
      if p.primary !in test.singleTypes then TypeError
      else
        var t := test.singleTypes[p.primary];
        Ok(RankedView("single", p.primary, p.primary, p.secondary, p.diff.GetOr(99), dims, R.SingleContent(t),
                      t.shareCopy, hashtags, p))
    else
      var ctx := R.MixContext(MaybeDimValue(primaryMeta), MaybeDimValue(secondaryMeta));
      var content := R.RenderMix(test.mixTemplates, ctx);
      Ok(RankedView("mix", p.primary + "x" + p.secondary, p.primary, p.secondary, p.diff.GetOr(0), dims,
                    R.MixedContent(content), content.shareCopy, hashtags, p))
  }

  /** The emotional branch of `loadFromShare`: the archetype is looked up by code (the first
      archetype if the code is unknown), and the chips are rendered from the payload's facts. */
  function ReconstructIndex(test: IndexTest, p: SharePayload): (r: IndexView)
    requires p.EmotionalPayload?
    ensures r.eli == p.eli && r.tier == p.tier && r.driver == p.driver && r.weak == p.weak
    ensures r.archetype.None? <==> test.archetypes == []
    ensures r.archetype.Some? && E.FindArchetype(test.archetypes, p.archetypeCode).None? ==>
              r.archetype.value == test.archetypes[0]
    ensures E.FindArchetype(test.archetypes, p.archetypeCode).Some? ==>
              r.archetype == E.FindArchetype(test.archetypes, p.archetypeCode)
  {
    var found := E.FindArchetype(test.archetypes, p.archetypeCode);
    var arche := if found.Some? then found else if test.archetypes != [] then Some(test.archetypes[0]) else None;
    IndexView(p.dim100, p.eli, p.tier, p.driver, FindDim(test.dimensions, p.driver), p.weak,
              FindDim(test.dimensions, p.weak), arche, E.ChipLines(test, p.driver, p.weak, p.eli, p.tier),
              "", HashtagLine(test.defaultHashtags), p)
  }

  /** What `loadFromShare` displays for a parsed payload, or None when it returns false: a
      payload of neither test, or a reconstruction that throws. The payload's version is not
      checked. */
  function Show(tests: Tests, p: SharePayload): Option<Shown> {
    if p.RelationshipPayload? then
      match ReconstructRanked(tests.relationship, p)
      case TypeError => None
      case Ok(v) => Some(ShownRanked(v))
    else if p.EmotionalPayload? then Some(ShownIndex(ReconstructIndex(tests.emotional, p)))
    else None
  }

  /** What `loadFromShare` displays for a `share` parameter, or None when it returns false:
      no parameter, a token that does not decode or text that does not parse, besides the
      failures of `Show`. */
  function LoadOutcome(share: string, tests: Tests, parse: string -> Option<SharePayload>): Option<Shown> {
    if share == "" then None
    else match DecodePayload(share, parse)
      case None => None
      case Some(p) => Show(tests, p)
  }

  /** Opening a link made from a payload shows what that payload reconstructs to. */
  lemma LoadOwnToken(tests: Tests, p: SharePayload, stringify: SharePayload -> string,
                     parse: string -> Option<SharePayload>)
    requires parse(stringify(p)) == Some(p) && stringify(p) != ""
    ensures LoadOutcome(Token(p, stringify), tests, parse) == Show(tests, p)
  {
    TokenRoundTrip(p, stringify, parse);
    Base64Url.EncodeNonEmpty(stringify(p));
  }

  /** The application state that `loadFromShare` writes. An empty `testKey` is `null`. */
  class App {
    var testKey: string
    var nickname: string
    var result: Option<Shown>
    var screen: string
    var fromShare: bool

    /** The initial `state`. */
    constructor ()
      ensures testKey == "" && nickname == "" && result == None && screen == "home" && !fromShare
    {
      testKey, nickname, result, screen, fromShare := "", "", None, "home", false;
    }

    /** `loadFromShare()`, given the `share` parameter of the location hash ("" when absent).
        The test key and nickname are stored as soon as the payload's test is known, so a
        reconstruction that throws afterwards leaves them changed. */
    method LoadFromShare(share: string, tests: Tests, parse: string -> Option<SharePayload>) returns (ok: bool)
      modifies this
      ensures ok <==> LoadOutcome(share, tests, parse).Some?
      ensures ok ==> result == LoadOutcome(share, tests, parse) && screen == "result" && fromShare
      ensures !ok ==> result == old(result) && screen == old(screen) && fromShare == old(fromShare)
      ensures var p := if share == "" then None else DecodePayload(share, parse);
              if p.Some? && (p.value.RelationshipPayload? || p.value.EmotionalPayload?) then
                testKey == (if p.value.RelationshipPayload? then "relationship" else "emotional") &&
                nickname == p.value.nickname
              else testKey == old(testKey) && nickname == old(nickname)
    {
      if share == "" {
        return false;
      }
      var decoded := Base64Url.Decode(share);
      if decoded.None? {
        return false;
      }
      var payload := parse(decoded.value);
      if payload.None? {
        return false;
      }
      var p := payload.value;
      if p.RelationshipPayload? {
        testKey := "relationship";
        nickname := p.nickname;
        var res := ReconstructRanked(tests.relationship, p);
        if res.TypeError? {
          return false;
        }
        result := Some(ShownRanked(res.value));
        screen := "result";
        fromShare := true;
        return true;
      }
      if p.EmotionalPayload? {
        testKey := "emotional";
        nickname := p.nickname;
        result := Some(ShownIndex(ReconstructIndex(tests.emotional, p)));
        screen := "result";
        fromShare := true;
        return true;
      }
      return false;
    }
  }

  /** No two definitions share a code. */
  predicate UniqueDimCodes(ds: seq<Dimension>) {
    forall i, j :: 0 <= i < j < |ds| ==> ds[i].code != ds[j].code
  }

  /** No two archetypes share a code. */
  predicate UniqueArchetypeCodes(archs: seq<Archetype>) {
    forall i, j :: 0 <= i < j < |archs| ==> archs[i].code != archs[j].code
  }

  /** Rebuilding a relationship result from its own payload gives the same kind, codes, diff
      and scores; the same authored entry, or, when no two dimensions share a code, the same
      rendered mix content. */
  lemma {:induction false} RankedReconstruction(test: RankedTest, answers: seq<Option<int>>, dims: seq<DimScore>,
                                                nickname: string, ts: string)
    requires DimsSpec(test.dimensions, test.questions, answers, R.RawFloor, R.RawRange) == Ok(dims)
    requires R.Classify(test, dims, nickname, ts).Ok?
    ensures var res := R.Classify(test, dims, nickname, ts).value;
            var v := ReconstructRanked(test, res.payload);
            v.Ok? &&
            v.value.kind == res.kind && v.value.code == res.code &&
            v.value.primaryCode == res.primaryCode && v.value.secondaryCode == res.secondaryCode &&
            v.value.diff == res.diff &&
            |v.value.dims| == |res.dims| &&
            (forall k :: 0 <= k < |res.dims| ==>
               v.value.dims[k].code == res.dims[k].code && v.value.dims[k].to100 == res.dims[k].to100) &&
            (res.kind == "single" ==> v.value.content == res.content) &&
            (UniqueDimCodes(test.dimensions) ==> v.value.content == res.content)
  {
    RankedHeaderBack(test, dims, nickname, ts);
    var res := R.Classify(test, dims, nickname, ts).value;
    if res.kind == "mix" && UniqueDimCodes(test.dimensions) {
      RankedMixBack(test, answers, dims, nickname, ts);
    }
  }

  /** Everything but the mix content comes back from the payload alone. */
  lemma RankedHeaderBack(test: RankedTest, dims: seq<DimScore>, nickname: string, ts: string)
    requires R.Classify(test, dims, nickname, ts).Ok?
    ensures var res := R.Classify(test, dims, nickname, ts).value;
            var v := ReconstructRanked(test, res.payload);
            v.Ok? &&
            v.value.kind == res.kind && v.value.code == res.code &&
            v.value.primaryCode == res.primaryCode && v.value.secondaryCode == res.secondaryCode &&
            v.value.diff == res.diff &&
            |v.value.dims| == |res.dims| &&
            (forall k :: 0 <= k < |res.dims| ==>
               v.value.dims[k].code == res.dims[k].code && v.value.dims[k].to100 == res.dims[k].to100) &&
            (res.kind == "single" ==> v.value.content == res.content)
  {
  }

  /** The mix content is rendered again from the definitions found by code, which are the
      table's own when no two dimensions share a code. */
  lemma RankedMixBack(test: RankedTest, answers: seq<Option<int>>, dims: seq<DimScore>, nickname: string, ts: string)
    requires DimsSpec(test.dimensions, test.questions, answers, R.RawFloor, R.RawRange) == Ok(dims)
    requires R.Classify(test, dims, nickname, ts).Ok?
    requires R.Classify(test, dims, nickname, ts).value.kind == "mix" && UniqueDimCodes(test.dimensions)
    ensures var res := R.Classify(test, dims, nickname, ts).value;
            var v := ReconstructRanked(test, res.payload);
            v.Ok? && v.value.content == res.content
  {
    DimsMeta(test.dimensions, test.questions, answers, R.RawFloor, R.RawRange, dims);
    var i := R.PrimaryIndex(dims);
    var pd := dims[i];
    var rest := Ranking.RemoveAt(dims, i);
    var j := Ranking.FirstMax(rest, R.Raw);
    var sd := rest[j];
    assert sd == R.Secondary(dims);
    assert sd == dims[if j < i then j else j + 1];
    FindDimIsLastDef(test.dimensions, pd.code);
    FindDimIsLastDef(test.dimensions, sd.code);
  }

  /** A relationship result opened from its own share link shows the same classification:
      see `RankedReconstruction`. */
  lemma RelationshipRoundTrip(tests: Tests, answers: seq<Option<int>>, nickname: string, ts: string,
                              stringify: SharePayload -> string, parse: string -> Option<SharePayload>)
    requires R.RelationshipSpec(tests.relationship, answers, nickname, ts).Ok?
    requires var p := R.RelationshipSpec(tests.relationship, answers, nickname, ts).value.payload;
             parse(stringify(p)) == Some(p) && stringify(p) != ""
    ensures var res := R.RelationshipSpec(tests.relationship, answers, nickname, ts).value;
            var shown := LoadOutcome(Token(res.payload, stringify), tests, parse);
            shown.Some? && shown.value.ShownRanked? &&
            var v := shown.value.ranked;
            v.kind == res.kind && v.code == res.code &&
            v.primaryCode == res.primaryCode && v.secondaryCode == res.secondaryCode && v.diff == res.diff &&
            (UniqueDimCodes(tests.relationship.dimensions) ==> v.content == res.content)
  {
    var test := tests.relationship;
    var dims := DimsSpec(test.dimensions, test.questions, answers, R.RawFloor, R.RawRange).value;
    var res := R.Classify(test, dims, nickname, ts).value;
    LoadOwnToken(tests, res.payload, stringify, parse);
    RankedReconstruction(test, answers, dims, nickname, ts);
  }

  /** Rebuilding an emotional result from its own payload gives the same index, tier, driver,
      weak dimension and chip lines, and, when no two archetypes share a code, the same
      archetype. */
  lemma IndexReconstruction(test: IndexTest, dims: seq<DimScore>, nickname: string, ts: string)
    requires E.HasIndexCodes(Dim100Map(dims))
    requires E.Classify(test, dims, nickname, ts).Ok?
    ensures var res := E.Classify(test, dims, nickname, ts).value;
            var v := ReconstructIndex(test, res.payload);
            v.eli == res.eli && v.tier == res.tier && v.driver == res.driver && v.weak == res.weak &&
            v.chips == res.chips && v.dim100 == res.dim100 &&
            (UniqueArchetypeCodes(test.archetypes) ==> v.archetype == Some(res.archetype))
  {
    IndexHeaderBack(test, dims, nickname, ts);
    if UniqueArchetypeCodes(test.archetypes) {
      IndexArchetypeBack(test, dims, nickname, ts);
    }
  }

  /** The index, tier, driver, weak dimension, chips and scores come back from the payload. */
  lemma IndexHeaderBack(test: IndexTest, dims: seq<DimScore>, nickname: string, ts: string)
    requires E.HasIndexCodes(Dim100Map(dims))
    requires E.Classify(test, dims, nickname, ts).Ok?
    ensures var res := E.Classify(test, dims, nickname, ts).value;
            var v := ReconstructIndex(test, res.payload);
            v.eli == res.eli && v.tier == res.tier && v.driver == res.driver && v.weak == res.weak &&
            v.chips == res.chips && v.dim100 == res.dim100
  {
  }

  /** With distinct archetype codes, the archetype found by code is the one classified. */
  lemma IndexArchetypeBack(test: IndexTest, dims: seq<DimScore>, nickname: string, ts: string)
    requires E.HasIndexCodes(Dim100Map(dims))
    requires E.Classify(test, dims, nickname, ts).Ok? && UniqueArchetypeCodes(test.archetypes)
    ensures var res := E.Classify(test, dims, nickname, ts).value;
            ReconstructIndex(test, res.payload).archetype == Some(res.archetype)
  {
    var res := E.Classify(test, dims, nickname, ts).value;
    var archs := test.archetypes;
    var found := E.FindArchetype(archs, res.archetype.code);
    assert res.archetype in archs;
    var i :| 0 <= i < |archs| && archs[i] == found.value;
    var j :| 0 <= j < |archs| && archs[j] == res.archetype;
    assert i == j;
  }

  /** An emotional result opened from its own share link shows the same classification: see
      `IndexReconstruction`. */
  lemma EmotionalRoundTrip(tests: Tests, answers: seq<Option<int>>, nickname: string, ts: string,
                           stringify: SharePayload -> string, parse: string -> Option<SharePayload>)
    requires E.DefinesIndexCodes(tests.emotional)
    requires E.EmotionalSpec(tests.emotional, answers, nickname, ts).Ok?
    requires var p := E.EmotionalSpec(tests.emotional, answers, nickname, ts).value.payload;
             parse(stringify(p)) == Some(p) && stringify(p) != ""
    ensures var res := E.EmotionalSpec(tests.emotional, answers, nickname, ts).value;
            var shown := LoadOutcome(Token(res.payload, stringify), tests, parse);
            shown.Some? && shown.value.ShownIndex? &&
            var v := shown.value.index;
            v.eli == res.eli && v.tier == res.tier && v.driver == res.driver && v.weak == res.weak &&
            v.chips == res.chips &&
            (UniqueArchetypeCodes(tests.emotional.archetypes) ==> v.archetype == Some(res.archetype))
  {
    var test := tests.emotional;
    var dims := DimsSpec(test.dimensions, test.questions, answers, E.RawFloor, E.RawRange).value;
    E.DimsHoldCodes(test, answers, dims);
    var res := E.Classify(test, dims, nickname, ts).value;
    LoadOwnToken(tests, res.payload, stringify, parse);
    IndexReconstruction(test, dims, nickname, ts);
  }
}
