/** The emotional-labour test (`computeEmotional`): the exhaustion and protection means, the
    ELI index and its tier, the driver and weak dimensions, the first-match archetype scan with
    its two fallbacks, the three personalisation chips, the caption and the share payload. */
module Emotional {
  import opened Wrappers
  import opened Text
  import opened JsValue
  import opened Config
  import opened Template
  import opened Scoring
  import opened Ranking

  /** The raw score floor and range of the emotional test: four questions per dimension. */
  const RawFloor := 4
  const RawRange := 16

  /** The "cost" dimensions, whose mean is the exhaustion score, in the order ties are broken. */
  const CostCodes: seq<string> := ["OUT", "MASK", "FIX"]
  /** The "protective" dimensions, whose mean is the protection score. */
  const ProtectCodes: seq<string> := ["BND", "REC", "EXP"]

  /** The tier label used when no tier holds the index. */
  const UnknownTier := "未知"

  /** The six codes the computation reads from `dim100`. */
  predicate HasIndexCodes(dim100: map<string, int>) {
    "OUT" in dim100 && "MASK" in dim100 && "FIX" in dim100 &&
    "BND" in dim100 && "REC" in dim100 && "EXP" in dim100
  }

  // ---- tiers ----

  predicate InTier(eli: int, t: Tier) {
    t.min <= eli <= t.max
  }

  /** The label of the first tier whose inclusive range holds `eli`. */
  function TierOf(eli: int, tiers: seq<Tier>): (r: string)
    ensures (forall i :: 0 <= i < |tiers| ==> !InTier(eli, tiers[i])) ==> r == UnknownTier
    ensures forall i :: 0 <= i < |tiers| && InTier(eli, tiers[i]) && (forall j :: 0 <= j < i ==> !InTier(eli, tiers[j]))
              ==> r == tiers[i].labelText
  {
    if tiers == [] then UnknownTier
    else if InTier(eli, tiers[0]) then tiers[0].labelText
    else
      var r := TierOf(eli, tiers[1..]);
      assert forall i :: 1 <= i < |tiers| ==> tiers[i] == tiers[1..][i - 1];
      r
  }

  /** `pickTier(eli, tiers)`: the loop with its early return. */
  method PickTier(eli: int, tiers: seq<Tier>) returns (tierLabel: string)
    ensures tierLabel == TierOf(eli, tiers)
  {
    for i := 0 to |tiers|
      invariant TierOf(eli, tiers) == TierOf(eli, tiers[i..])
    {
      assert tiers[i..][0] == tiers[i] && tiers[i..][1..] == tiers[i + 1..];
      if InTier(eli, tiers[i]) {
        return tiers[i].labelText;
      }
    }
    return UnknownTier;
  }

  // ---- archetype rules ----

  /** The comparison operators a condition may use. */
  const KnownOps: set<string> := {">=", "<=", ">", "<", "=="}

  /** `evalCondition(dim100, cond)`. */
  function EvalCondition(dim100: map<string, int>, c: Cond): (r: bool)
    ensures c.dim !in dim100 ==> !r
    ensures c.op !in KnownOps ==> !r
    ensures c.dim in dim100 && c.op == ">=" ==> (r <==> dim100[c.dim] >= c.value)
    ensures c.dim in dim100 && c.op == "<=" ==> (r <==> dim100[c.dim] <= c.value)
    ensures c.dim in dim100 && c.op == ">" ==> (r <==> dim100[c.dim] > c.value)
    ensures c.dim in dim100 && c.op == "<" ==> (r <==> dim100[c.dim] < c.value)
    ensures c.dim in dim100 && c.op == "==" ==> (r <==> dim100[c.dim] == c.value)
  {
    if c.dim !in dim100 then false
    else
      var v := dim100[c.dim];
      if c.op == ">=" then v >= c.value
      else if c.op == "<=" then v <= c.value
      else if c.op == ">" then v > c.value
      else if c.op == "<" then v < c.value
      else if c.op == "==" then v == c.value
      else false
  }

  /** `conds.every(c => evalCondition(dim100, c))`. */
  function Every(dim100: map<string, int>, conds: seq<Cond>): (r: bool)
    ensures r <==> forall k :: 0 <= k < |conds| ==> EvalCondition(dim100, conds[k])
  {
    if conds == [] then true
    else
      assert forall k :: 1 <= k < |conds| ==> conds[k] == conds[1..][k - 1];
      EvalCondition(dim100, conds[0]) && Every(dim100, conds[1..])
  }

  /** `conds.some(c => evalCondition(dim100, c))`. */
  function Some_(dim100: map<string, int>, conds: seq<Cond>): (r: bool)
    ensures r <==> exists k :: 0 <= k < |conds| && EvalCondition(dim100, conds[k])
  {
    if conds == [] then false
    else
      assert forall k :: 1 <= k < |conds| ==> conds[k] == conds[1..][k - 1];
      EvalCondition(dim100, conds[0]) || Some_(dim100, conds[1..])
  }

  /** `matchArchetype(dim100, arche)`: every `all` condition holds, and some `any` condition
      holds unless the `any` list is empty. */
  function MatchArchetype(dim100: map<string, int>, a: Archetype): (r: bool)
    ensures r <==> (forall k :: 0 <= k < |a.all| ==> EvalCondition(dim100, a.all[k])) &&
                   (a.any == [] || exists k :: 0 <= k < |a.any| && EvalCondition(dim100, a.any[k]))
  {
    var allOk := Every(dim100, a.all);
    var anyOk := if |a.any| > 0 then Some_(dim100, a.any) else true;
    allOk && anyOk
  }

  /** Index of the first archetype whose rule matches. */
  function FirstMatch(dim100: map<string, int>, archs: seq<Archetype>): (r: Option<nat>)
    ensures r.None? <==> forall i :: 0 <= i < |archs| ==> !MatchArchetype(dim100, archs[i])
    ensures r.Some? ==> r.value < |archs| && MatchArchetype(dim100, archs[r.value]) &&
                        forall j :: 0 <= j < r.value ==> !MatchArchetype(dim100, archs[j])
  {
    if archs == [] then None
    else if MatchArchetype(dim100, archs[0]) then Some(0)
    else
      assert forall i :: 1 <= i < |archs| ==> archs[i] == archs[1..][i - 1];
      match FirstMatch(dim100, archs[1..])
      case None => None
      case Some(k) => Some(k + 1)
  }

  /** `archs.find(x => x.code === code)`. */
  function FindArchetype(archs: seq<Archetype>, code: string): (r: Option<Archetype>)
    ensures r.None? <==> forall i :: 0 <= i < |archs| ==> archs[i].code != code
    ensures r.Some? ==> r.value.code == code && r.value in archs
    ensures r.Some? ==> exists k :: 0 <= k < |archs| && archs[k] == r.value &&
                          forall j :: 0 <= j < k ==> archs[j].code != code
  {
    if archs == [] then None
    else if archs[0].code == code then Some(archs[0])
    else
      assert forall i :: 1 <= i < |archs| ==> archs[i] == archs[1..][i - 1];
      var r := FindArchetype(archs[1..], code);
      if r.Some? then
        var k :| 0 <= k < |archs[1..]| && archs[1..][k] == r.value &&
                 forall j :: 0 <= j < k ==> archs[1..][j].code != code;
        assert archs[k + 1] == r.value;
        r
      else r
  }

  /** `map[driver.code] || archetypes[0]?.code`: an absent or empty mapping falls back to the
      first archetype's code, and to `undefined` when there is no archetype at all. */
  function FallbackCode(archs: seq<Archetype>, driverToArchetype: map<string, string>, driver: string): Option<string> {
    if driver in driverToArchetype && driverToArchetype[driver] != "" then Some(driverToArchetype[driver])
    else if archs != [] then Some(archs[0].code)
    else None
  }

  /** The archetype `computeEmotional` settles on: the first match in catalog order; failing
      that the archetype the driver maps to; failing that the first archetype. */
  function SelectedArchetype(dim100: map<string, int>, archs: seq<Archetype>,
                             driverToArchetype: map<string, string>, driver: string): (r: Option<Archetype>)
    ensures r.None? <==> archs == []
    ensures r.Some? ==> r.value in archs
    ensures forall i :: (0 <= i < |archs| && MatchArchetype(dim100, archs[i]) &&
                         (forall j :: 0 <= j < i ==> !MatchArchetype(dim100, archs[j]))) ==> r == Some(archs[i])
    ensures (forall i :: 0 <= i < |archs| ==> !MatchArchetype(dim100, archs[i])) &&
            driver in driverToArchetype && driverToArchetype[driver] != "" &&
            FindArchetype(archs, driverToArchetype[driver]).Some? ==>
              r == FindArchetype(archs, driverToArchetype[driver])
    ensures (forall i :: 0 <= i < |archs| ==> !MatchArchetype(dim100, archs[i])) && archs != [] &&
            (driver !in driverToArchetype || driverToArchetype[driver] == "" ||
             FindArchetype(archs, driverToArchetype[driver]).None?) ==>
              r == Some(archs[0])
  {
    match FirstMatch(dim100, archs)
    case Some(i) => Some(archs[i])
    case None =>
      var found := match FallbackCode(archs, driverToArchetype, driver)
        case Some(c) => FindArchetype(archs, c)
        case None => None;
      if found.Some? then found
      else if archs != [] then Some(archs[0])
      else None
  }

  /** The archetype scan with its `break`, then the fallback. */
  method SelectArchetype(dim100: map<string, int>, archs: seq<Archetype>,
                         driverToArchetype: map<string, string>, driver: string)
    returns (arche: Option<Archetype>)
    ensures arche == SelectedArchetype(dim100, archs, driverToArchetype, driver)
  {
    arche := None;
    var i := 0;
    while i < |archs|
      invariant 0 <= i <= |archs| && arche.None?
      invariant forall j :: 0 <= j < i ==> !MatchArchetype(dim100, archs[j])
    {
      if MatchArchetype(dim100, archs[i]) {
        arche := Some(archs[i]);
        break;
      }
      i := i + 1;
    }
    if arche.None? {
      var fallbackCode := FallbackCode(archs, driverToArchetype, driver);
      var found := if fallbackCode.Some? then FindArchetype(archs, fallbackCode.value) else None;
      arche := if found.Some? then found else if archs != [] then Some(archs[0]) else None;
    }
  }

  /** When two rules both match, the one earlier in the catalog is chosen, whatever the later
      one's conditions are. */
  lemma FirstMatchWins(dim100: map<string, int>, archs: seq<Archetype>,
                       driverToArchetype: map<string, string>, driver: string, i: nat, j: nat)
    requires i < j < |archs|
    requires MatchArchetype(dim100, archs[i]) && MatchArchetype(dim100, archs[j])
    ensures SelectedArchetype(dim100, archs, driverToArchetype, driver) != Some(archs[j]) || archs[j] == archs[FirstMatch(dim100, archs).value]
    ensures FirstMatch(dim100, archs).value <= i
  {
  }

  // ---- the index ----

  /** `Math.round((a + b + c) / 3)`. */
  function Mean3(a: int, b: int, c: int): int {
    Round(a + b + c, 3)
  }

  /** `Math.round(0.7 * exhaustion + 0.3 * (100 - protection))`, in exact arithmetic. */
  function Eli(exhaustion: int, protection: int): (r: int)
    ensures 10 * r - 5 <= 7 * exhaustion + 3 * (100 - protection) < 10 * r + 5
  {
    Round(7 * exhaustion + 3 * (100 - protection), 10)
  }

  /** Scores on the 0..100 scale give means and an index on the same scale; a higher
      exhaustion never lowers the index and a higher protection never raises it. */
  lemma EliRange(exhaustion: int, protection: int, exhaustion': int, protection': int)
    requires 0 <= exhaustion <= 100 && 0 <= protection <= 100
    ensures 0 <= Eli(exhaustion, protection) <= 100
    ensures exhaustion <= exhaustion' && protection' <= protection ==>
              Eli(exhaustion, protection) <= Eli(exhaustion', protection')
  {
  }

  /** The dimensions `codes` paired with their scores, in the order given. */
  function Candidates(dim100: map<string, int>, codes: seq<string>): (r: seq<(string, int)>)
    requires forall k :: 0 <= k < |codes| ==> codes[k] in dim100
    ensures |r| == |codes|
    ensures forall k :: 0 <= k < |codes| ==> r[k] == (codes[k], dim100[codes[k]])
  {
    seq(|codes|, k requires 0 <= k < |codes| => (codes[k], dim100[codes[k]]))
  }

  function Score(p: (string, int)): int { p.1 }
  function NegScore(p: (string, int)): int { -p.1 }

  /** `["OUT","MASK","FIX"].map(...).sort((a, b) => b.v - a.v)[0].code`: the highest-scoring
      cost dimension, the earliest of them on a tie. */
  function Driver(dim100: map<string, int>): (r: string)
    requires HasIndexCodes(dim100)
    ensures exists i :: 0 <= i < |CostCodes| && r == CostCodes[i] &&
              (forall j :: 0 <= j < |CostCodes| ==> dim100[CostCodes[j]] <= dim100[r]) &&
              (forall j :: 0 <= j < i ==> dim100[CostCodes[j]] < dim100[r])
  {
    var cands := Candidates(dim100, CostCodes);
    var i := FirstMax(cands, Score);
    SortDescHead(cands, Score);
    assert forall j :: 0 <= j < |cands| ==> Score(cands[j]) == dim100[CostCodes[j]];
    SortDesc(cands, Score)[0].0
  }

  /** `["BND","REC","EXP"].map(...).sort((a, b) => a.v - b.v)[0].code`: the lowest-scoring
      protective dimension, the earliest of them on a tie. */
  function Weak(dim100: map<string, int>): (r: string)
    requires HasIndexCodes(dim100)
    ensures exists i :: 0 <= i < |ProtectCodes| && r == ProtectCodes[i] &&
              (forall j :: 0 <= j < |ProtectCodes| ==> dim100[ProtectCodes[j]] >= dim100[r]) &&
              (forall j :: 0 <= j < i ==> dim100[ProtectCodes[j]] > dim100[r])
  {
    var cands := Candidates(dim100, ProtectCodes);
    var i := FirstMax(cands, NegScore);
    SortDescHead(cands, NegScore);
    assert forall j :: 0 <= j < |cands| ==> NegScore(cands[j]) == -dim100[ProtectCodes[j]];
    SortDesc(cands, NegScore)[0].0
  }

  // ---- personalisation chips and caption ----

  datatype Chips = Chips(eliLine: string, driverLine: string, weakLine: string)

  const DefaultWeakFix := "先从一个小动作开始"

  /** The weak dimension's first micro-fix, or the default suggestion. */
  function WeakFix(test: IndexTest, weak: string): string {
    var fixes := match FindDim(test.dimensions, weak) case Some(d) => d.microFix case None => [];
    FirstOr(fixes, DefaultWeakFix)
  }

  /** `meta?.name || code`. */
  function NameOr(meta: Option<Dimension>, code: string): string {
    OrElse(match meta case Some(d) => d.name case None => "", code)
  }

  /** The three chip lines, rendered from the test's chip templates (or the defaults) with the
      driver's and weak dimension's names, the weak dimension's fix, the index and the tier. */
  function ChipLines(test: IndexTest, driver: string, weak: string, eli: int, tier: string): (r: Chips)
  {
    var driverMeta := FindDim(test.dimensions, driver);
    var weakMeta := FindDim(test.dimensions, weak);
    var ctx := JObj(map[
      "driverName" := JStr(NameOr(driverMeta, driver)),
      "driverMeaning" := JStr(match driverMeta case Some(d) => d.meaning case None => ""),
      "weakName" := JStr(NameOr(weakMeta, weak)),
      "weakFix" := JStr(WeakFix(test, weak)),
      "ELI" := JStr(IntToString(eli)),
      "tier" := JStr(tier)]);
    Chips(Render(OrElse(test.chips.eliLine, "指数：{{ELI}}（{{tier}}）"), ctx),
          Render(OrElse(test.chips.driverLine, "主消耗：{{driverName}}"), ctx),
          Render(OrElse(test.chips.weakLine, "短板：{{weakName}}"), ctx))
  }

  const DefaultCaption := "我的情绪劳动指数：" + Slot("ELI") + "（" + Slot("tier") + "）\n" + Slot("hashtags")

  /** The share caption of an emotional result. */
  function Caption(test: IndexTest, eli: int, tier: string, arche: Archetype, driver: string, weak: string): string {
    Render(FirstOr(test.captionTemplates, DefaultCaption), JObj(CaptionFields(test, eli, tier, arche, driver, weak)))
  }

  /** The caption's template context. */
  function CaptionFields(test: IndexTest, eli: int, tier: string, arche: Archetype, driver: string, weak: string)
    : map<string, JValue>
  {
    map[
      "ELI" := JStr(IntToString(eli)),
      "tier" := JStr(tier),
      "archetypeName" := JStr(arche.name),
      "driverName" := JStr(NameOr(FindDim(test.dimensions, driver), driver)),
      "weakName" := JStr(NameOr(FindDim(test.dimensions, weak), weak)),
      "oneAction" := JStr(FirstOr(arche.repair, WeakFix(test, weak))),
      "hashtags" := JStr(HashtagLine(test.defaultHashtags))]
  }

  /** The default caption's literal parts hold no `{` and its keys are words. */
  lemma DefaultCaptionParts()
    ensures DefaultCaption == "我的情绪劳动指数：" + Slot("ELI") + "（" + Slot("tier") + "）\n" + Slot("hashtags")
    ensures '{' !in "我的情绪劳动指数：" && '{' !in "（" && '{' !in "）\n"
    ensures IsWord("ELI") && IsWord("tier") && IsWord("hashtags")
  {
    assert IsWord("ELI") && IsWord("tier") && IsWord("hashtags");
  }

  /** Without an authored caption template the caption is "我的情绪劳动指数：", the index in
      decimal, the tier label in full-width brackets, a line break and the hashtag line. */
  lemma DefaultCaptionText(test: IndexTest, eli: int, tier: string, arche: Archetype, driver: string, weak: string)
    requires test.captionTemplates == [] || test.captionTemplates[0] == ""
    ensures Caption(test, eli, tier, arche, driver, weak) ==
              "我的情绪劳动指数：" + IntToString(eli) + "（" + tier + "）\n" + HashtagLine(test.defaultHashtags)
  {
    DefaultCaptionParts();
    RenderThreeSlots(CaptionFields(test, eli, tier, arche, driver, weak), FirstOr(test.captionTemplates, DefaultCaption),
                     "我的情绪劳动指数：", "ELI", "（", "tier", "）\n", "hashtags");
  }

  /** A caption template `{{oneAction}}` gives the archetype's first repair step, or the weak
      dimension's fix when the archetype lists none. */
  lemma OneActionCaption(test: IndexTest, eli: int, tier: string, arche: Archetype, driver: string, weak: string)
    requires test.captionTemplates != [] && test.captionTemplates[0] == Slot("oneAction")
    ensures arche.repair != [] && arche.repair[0] != "" ==> Caption(test, eli, tier, arche, driver, weak) == arche.repair[0]
    ensures (arche.repair == [] || arche.repair[0] == "") ==> Caption(test, eli, tier, arche, driver, weak) == WeakFix(test, weak)
  {
    assert IsWord("oneAction");
    RenderOneSlot(CaptionFields(test, eli, tier, arche, driver, weak), FirstOr(test.captionTemplates, DefaultCaption), "oneAction");
  }

  // ---- the whole computation ----

  /** What `computeEmotional` returns. */
  datatype IndexResult = IndexResult(
    dims: seq<DimScore>,
    dim100: seq<(string, int)>,
    exhaustion: int,
    protection: int,
    eli: int,
    tier: string,
    driver: string,
    weak: string,
    archetype: Archetype,
    chips: Chips,
    caption: string,
    hashtags: string,
    payload: SharePayload)

  /** The result once the tier and the archetype are known. */
  function Assemble(test: IndexTest, dims: seq<DimScore>, eli: int, tier: string, arche: Archetype,
                    nickname: string, ts: string): IndexResult
    requires HasIndexCodes(Dim100Map(dims))
  {
    var dim100 := Dim100Map(dims);
    var driver := Driver(dim100);
    var weak := Weak(dim100);
    IndexResult(dims, Dims100(dims), Exhaustion(dim100), Protection(dim100), eli, tier, driver, weak, arche,
                ChipLines(test, driver, weak, eli, tier), Caption(test, eli, tier, arche, driver, weak),
                HashtagLine(test.defaultHashtags),
                EmotionalPayload(1, nickname, ts, eli, tier, arche.code, driver, weak, Dims100(dims)))
  }

  function Exhaustion(dim100: map<string, int>): int
    requires HasIndexCodes(dim100)
  {
    Mean3(dim100["OUT"], dim100["MASK"], dim100["FIX"])
  }

  function Protection(dim100: map<string, int>): int
    requires HasIndexCodes(dim100)
  {
    Mean3(dim100["BND"], dim100["REC"], dim100["EXP"])
  }

  /** Classification of a finished `dims` table. With no archetype at all, reading the chosen
      archetype's `repair` list is a TypeError. */
  function Classify(test: IndexTest, dims: seq<DimScore>, nickname: string, ts: string): (r: Outcome<IndexResult>)
    requires HasIndexCodes(Dim100Map(dims))
    ensures r.TypeError? <==> test.archetypes == []
    ensures r.Ok? ==>
              var dim100 := Dim100Map(dims);
              var ex := Exhaustion(dim100);
              var pr := Protection(dim100);
              r.value.exhaustion == ex && r.value.protection == pr &&
              r.value.eli == Eli(ex, pr) &&
              r.value.tier == TierOf(r.value.eli, test.tiers) &&
              r.value.driver == Driver(dim100) && r.value.weak == Weak(dim100) &&
              Some(r.value.archetype) == SelectedArchetype(dim100, test.archetypes, test.driverToArchetype, r.value.driver) &&
              r.value.chips == ChipLines(test, r.value.driver, r.value.weak, r.value.eli, r.value.tier) &&
              r.value.caption == Caption(test, r.value.eli, r.value.tier, r.value.archetype, r.value.driver, r.value.weak) &&
              r.value.hashtags == HashtagLine(test.defaultHashtags) &&
              r.value.payload == EmotionalPayload(1, nickname, ts, r.value.eli, r.value.tier, r.value.archetype.code,
                                                  r.value.driver, r.value.weak, Dims100(dims))
  {
    var dim100 := Dim100Map(dims);
    var eli := Eli(Exhaustion(dim100), Protection(dim100));
    match SelectedArchetype(dim100, test.archetypes, test.driverToArchetype, Driver(dim100))
    case None => TypeError
    case Some(arche) => Ok(Assemble(test, dims, eli, TierOf(eli, test.tiers), arche, nickname, ts))
  }

  /** The six index dimensions are defined by the test. */
  predicate DefinesIndexCodes(test: IndexTest) {
    var codes := Codes(test.dimensions);
    "OUT" in codes && "MASK" in codes && "FIX" in codes && "BND" in codes && "REC" in codes && "EXP" in codes
  }

  /** A dims table holds every defined code. */
  lemma DimsHoldCodes(test: IndexTest, answers: seq<Option<int>>, dims: seq<DimScore>)
    requires DefinesIndexCodes(test)
    requires DimsSpec(test.dimensions, test.questions, answers, RawFloor, RawRange) == Ok(dims)
    ensures HasIndexCodes(Dim100Map(dims))
  {
    var codes := Codes(test.dimensions);
    forall c | c in codes ensures c in Dim100Map(dims) {
      var k :| 0 <= k < |codes| && codes[k] == c;
      assert dims[k].code == c;
    }
  }

  /** What `computeEmotional(test, answers)` returns, with `state.nickname` and the clock
      reading passed in. */
  function EmotionalSpec(test: IndexTest, answers: seq<Option<int>>, nickname: string, ts: string)
    : Outcome<IndexResult>
    requires DefinesIndexCodes(test)
  {
    match DimsSpec(test.dimensions, test.questions, answers, RawFloor, RawRange)
    case TypeError => TypeError
    case Ok(dims) =>
      DimsHoldCodes(test, answers, dims);
      Classify(test, dims, nickname, ts)
  }

  /** `computeEmotional`: the scoring loops, the tier loop and the archetype scan. */
  method ComputeEmotional(test: IndexTest, answers: seq<Option<int>>, nickname: string, ts: string)
    returns (r: Outcome<IndexResult>)
    requires DefinesIndexCodes(test)
    ensures r == EmotionalSpec(test, answers, nickname, ts)
  {
    var table := BuildDims(test.dimensions, test.questions, answers, RawFloor, RawRange);
    if table.TypeError? {
      return TypeError;
    }
    var dims := table.value;
    DimsHoldCodes(test, answers, dims);
    var dim100 := Dim100Map(dims);
    var eli := Eli(Exhaustion(dim100), Protection(dim100));
    var tier := PickTier(eli, test.tiers);
    var driver := Driver(dim100);
    var arche := SelectArchetype(dim100, test.archetypes, test.driverToArchetype, driver);
    if arche.None? {
      return TypeError;
    }
    r := Ok(Assemble(test, dims, eli, tier, arche.value, nickname, ts));
  }

  /** Whenever the catalog has an archetype, the computation produces one: classification
      never fails for want of a matching rule. */
  lemma FallbackCompleteness(test: IndexTest, answers: seq<Option<int>>, nickname: string, ts: string)
    requires DefinesIndexCodes(test)
    requires test.archetypes != []
    requires QuestionsKnown(test.dimensions, test.questions)
    ensures EmotionalSpec(test, answers, nickname, ts).Ok?
    ensures EmotionalSpec(test, answers, nickname, ts).value.archetype in test.archetypes
  {
  }
}
