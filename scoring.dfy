/** The scorer shared by both tests: `scoreAnswer`, the accumulation of weighted answers
    into a per-dimension raw sum, and the normalisation `Math.round((raw - floor) / range * 100)`.
    The relationship test uses floor 3 and range 12, the emotional test floor 4 and range 16. */
module Scoring {
  import opened Wrappers
  import opened Config

  /** `Math.round(n / d)` for a positive `d`: JavaScript rounds halves up, i.e. to
      floor(n / d + 1/2), which is floor((2n + d) / 2d). */
  function Round(n: int, d: int): (r: int)
    requires d > 0
    ensures 2 * d * r <= 2 * n + d < 2 * d * (r + 1)
  {
    (2 * n + d) / (2 * d)
  }

  /** Halves go up, towards positive infinity, on both sides of zero, as `Math.round` does:
      0.5 rounds to 1, 2.5 to 3, -0.5 to 0 and -1.5 to -1. */
  lemma RoundHalves()
    ensures Round(5, 10) == 1 && Round(25, 10) == 3
    ensures Round(-5, 10) == 0 && Round(-15, 10) == -1
  {
  }

  /** The answer given to question `i`; an unanswered question, or one past the end of the
      answer list, reads as `undefined`. */
  function AnswerAt(answers: seq<Option<int>>, i: nat): (r: Option<int>)
    ensures i < |answers| ==> r == answers[i]
    ensures i >= |answers| ==> r == None
  {
    if i < |answers| then answers[i] else None
  }

  /** `scoreAnswer(q, ans)` on the five-point scale. */
  function ScoreAnswer(q: Question, ans: Option<int>): int {
    match ans
    case None => 0
    case Some(a) => if q.reverse then 6 - a else a
  }

  /** `q.weight || 1`. */
  function EffectiveWeight(q: Question): (w: int)
    ensures w != 0
  {
    if q.weight == 0 then 1 else q.weight
  }

  /** What question `i` adds to the raw sum of its own dimension. */
  function Contribution(qs: seq<Question>, answers: seq<Option<int>>, i: nat): int
    requires i < |qs|
  {
    ScoreAnswer(qs[i], AnswerAt(answers, i)) * EffectiveWeight(qs[i])
  }

  /** An unanswered question contributes nothing; an answer on the scale is scored on the
      same scale, reverse-scored answers mirrored around 3. */
  lemma ScoreAnswerFacts(q: Question, a: int)
    ensures ScoreAnswer(q, None) == 0
    ensures 1 <= a <= 5 ==> 1 <= ScoreAnswer(q, Some(a)) <= 5
    ensures ScoreAnswer(q.(reverse := true), Some(a)) + ScoreAnswer(q.(reverse := false), Some(a)) == 6
  {
  }

  /** The raw sum of dimension `code` over the first `n` questions. */
  function DimSum(code: string, qs: seq<Question>, answers: seq<Option<int>>, n: nat): int
    requires n <= |qs|
  {
    if n == 0 then 0
    else DimSum(code, qs, answers, n - 1) + (if qs[n - 1].dim == code then Contribution(qs, answers, n - 1) else 0)
  }

  /** Only questions of that dimension count: a dimension no question uses has raw sum 0, and
      changing a question of another dimension (or its answer) leaves the sum alone. */
  lemma {:induction false} DimSumOwnQuestions(code: string, qs: seq<Question>, qs': seq<Question>,
                                              answers: seq<Option<int>>, answers': seq<Option<int>>, n: nat)
    requires n <= |qs| && n <= |qs'|
    requires forall i :: 0 <= i < n && (qs[i].dim == code || qs'[i].dim == code) ==>
               qs[i] == qs'[i] && AnswerAt(answers, i) == AnswerAt(answers', i)
    ensures DimSum(code, qs, answers, n) == DimSum(code, qs', answers', n)
  {
    if n > 0 {
      DimSumOwnQuestions(code, qs, qs', answers, answers', n - 1);
    }
  }

  /** The number of the first `n` questions that score dimension `code`. */
  function QuestionCount(code: string, qs: seq<Question>, n: nat): (c: nat)
    requires n <= |qs|
    ensures c <= n
  {
    if n == 0 then 0 else QuestionCount(code, qs, n - 1) + (if qs[n - 1].dim == code then 1 else 0)
  }

  /** With every answer on the 1..5 scale and every weight 1, a raw sum lies between the number
      of the dimension's questions and five times that number. */
  lemma {:induction false} DimSumBounds(code: string, qs: seq<Question>, answers: seq<Option<int>>, n: nat)
    requires n <= |qs|
    requires forall i :: 0 <= i < n ==> EffectiveWeight(qs[i]) == 1
    requires forall i :: 0 <= i < n ==> AnswerAt(answers, i).Some? && 1 <= AnswerAt(answers, i).value <= 5
    ensures QuestionCount(code, qs, n) <= DimSum(code, qs, answers, n) <= 5 * QuestionCount(code, qs, n)
  {
    if n > 0 {
      DimSumBounds(code, qs, answers, n - 1);
      ScoreAnswerFacts(qs[n - 1], AnswerAt(answers, n - 1).value);
    }
  }

  /** Three unit-weight questions answered on the scale give a relationship score in 0..100. */
  lemma RelationshipScoreInRange(raw: int)
    requires 3 <= raw <= 15
    ensures 0 <= Round((raw - 3) * 100, 12) <= 100
  {
  }

  /** Normalised scores are not clamped: a dimension whose questions were all skipped scores
      -25 in the relationship test and -25 in the emotional one. */
  lemma UnclampedExample()
    ensures Round((0 - 3) * 100, 12) == -25
    ensures Round((0 - 4) * 100, 16) == -25
  {
  }

  // ---- the dims table ----

  /** The dimension codes in the order in which they first appear: the key order of `dims`. */
  function Codes(ds: seq<Dimension>): (r: seq<string>)
  {
    if ds == [] then []
    else
      var p := Codes(ds[..|ds| - 1]);
      var c := ds[|ds| - 1].code;
      if c in p then p else p + [c]
  }

  /** Every defined code appears in `Codes` exactly once, and nothing else does. */
  lemma {:induction false} CodesFacts(ds: seq<Dimension>)
    ensures forall i, j :: 0 <= i < j < |Codes(ds)| ==> Codes(ds)[i] != Codes(ds)[j]
    ensures forall k :: 0 <= k < |ds| ==> ds[k].code in Codes(ds)
    ensures forall c :: c in Codes(ds) ==> exists k :: 0 <= k < |ds| && ds[k].code == c
  {
    if ds != [] {
      var n := |ds| - 1;
      CodesFacts(ds[..n]);
      assert forall k :: 0 <= k < n ==> ds[k] == ds[..n][k];
    }
  }

  /** The last definition of a code: `dims[d.code] = ...` keeps the last one. */
  function LastDef(ds: seq<Dimension>, code: string): (d: Dimension)
    requires code in Codes(ds)
    ensures d.code == code
  {
    var n := |ds| - 1;
    if ds[n].code == code then ds[n] else LastDef(ds[..n], code)
  }

  /** `LastDef` is a definition of the code that no later definition overrides. */
  lemma {:induction false} LastDefIsLast(ds: seq<Dimension>, code: string)
    requires code in Codes(ds)
    ensures exists k :: 0 <= k < |ds| && ds[k] == LastDef(ds, code) &&
                        forall j :: k < j < |ds| ==> ds[j].code != code
  {
    var n := |ds| - 1;
    if ds[n].code != code {
      LastDefIsLast(ds[..n], code);
      var k :| 0 <= k < n && ds[..n][k] == LastDef(ds[..n], code) &&
               forall j :: k < j < n ==> ds[..n][j].code != code;
      assert ds[k] == ds[..n][k];
    }
  }

  /** Whether every question names a defined dimension; a question that does not makes
      `dims[q.dim].raw` a property read on `undefined`. */
  predicate QuestionsKnown(ds: seq<Dimension>, qs: seq<Question>) {
    forall i :: 0 <= i < |qs| ==> qs[i].dim in Codes(ds)
  }

  /** The `dims` table that both tests build, in key order. */
  function DimsSpec(ds: seq<Dimension>, qs: seq<Question>, answers: seq<Option<int>>, floor: int, range: int)
    : (r: Outcome<seq<DimScore>>)
    requires range > 0
  {
    if !QuestionsKnown(ds, qs) then TypeError
    else
      var codes := Codes(ds);
      Ok(seq(|codes|, k requires 0 <= k < |codes| => Entry(ds, qs, answers, floor, range, codes[k])))
  }

  /** The finished entry of `dims` for one code. */
  function Entry(ds: seq<Dimension>, qs: seq<Question>, answers: seq<Option<int>>, floor: int, range: int,
                 c: string): DimScore
    requires range > 0 && c in Codes(ds)
  {
    var raw := DimSum(c, qs, answers, |qs|);
    DimScore(c, raw, Round((raw - floor) * 100, range), LastDef(ds, c))
  }

  /** The three loops that fill `dims`: one entry per dimension, each question's contribution
      added to its dimension, then every raw sum normalised. */
  method BuildDims(ds: seq<Dimension>, qs: seq<Question>, answers: seq<Option<int>>, floor: int, range: int)
    returns (r: Outcome<seq<DimScore>>)
    requires range > 0
    ensures r == DimsSpec(ds, qs, answers, floor, range)
  {
    var table, keys := InitTable(ds);
    assert SummedTo(table, ds, qs, answers, keys, 0);
    var summed := Accumulate(ds, qs, answers, table, keys);
    if summed.TypeError? {
      return TypeError;
    }
    var done := Normalise(summed.value, keys, floor, range);
    var entries := seq(|keys|, k requires 0 <= k < |keys| => done[keys[k]]);
    ghost var spec := seq(|keys|, k requires 0 <= k < |keys| => Entry(ds, qs, answers, floor, range, keys[k]));
    assert DimsSpec(ds, qs, answers, floor, range) == Ok(spec);
    forall k | 0 <= k < |keys|
      ensures entries[k] == spec[k]
    {
      var c := keys[k];
      assert c in summed.value;
    }
    assert entries == spec;
    r := Ok(entries);
  }

  /** `for(const d of test.dimensions) dims[d.code] = { raw: 0, to100: 0, meta: d }`. */
  method InitTable(ds: seq<Dimension>) returns (table: map<string, DimScore>, keys: seq<string>)
    ensures keys == Codes(ds)
    ensures forall c :: c in table <==> c in keys
    ensures forall c :: c in table ==> table[c] == DimScore(c, 0, 0, LastDef(ds, c))
  {
    table, keys := map[], [];
    for i := 0 to |ds|
      invariant keys == Codes(ds[..i])
      invariant forall c :: c in table <==> c in keys
      invariant forall c :: c in table ==> table[c] == DimScore(c, 0, 0, LastDef(ds[..i], c))
    {
      var d := ds[i];
      assert ds[..i + 1][..i] == ds[..i];
      assert ds[..i + 1][i] == d;
      if d.code !in table {
        keys := keys + [d.code];
      }
      table := table[d.code := DimScore(d.code, 0, 0, d)];
    }
    assert ds[..|ds|] == ds;
  }

  /** The table after the first `n` questions: every key's raw sum over them, nothing else
      changed from the initial entries. */
  ghost predicate SummedTo(t: map<string, DimScore>, ds: seq<Dimension>, qs: seq<Question>, answers: seq<Option<int>>,
                     keys: seq<string>, n: nat)
    requires n <= |qs|
  {
    keys == Codes(ds) &&
    (forall c :: c in t <==> c in keys) &&
    (forall c :: c in t ==> t[c] == DimScore(c, DimSum(c, qs, answers, n), 0, LastDef(ds, c)))
  }

  /** The question loop: each answer's weighted score is added to the raw sum of the question's
      own dimension; a question naming no defined dimension aborts with a TypeError. */
  method Accumulate(ds: seq<Dimension>, qs: seq<Question>, answers: seq<Option<int>>,
                    table: map<string, DimScore>, keys: seq<string>)
    returns (r: Outcome<map<string, DimScore>>)
    requires keys == Codes(ds)
    requires SummedTo(table, ds, qs, answers, keys, 0)
    ensures r.TypeError? <==> !QuestionsKnown(ds, qs)
    ensures r.Ok? ==> SummedTo(r.value, ds, qs, answers, keys, |qs|)
  {
    var t := table;
    for i := 0 to |qs|
      invariant SummedTo(t, ds, qs, answers, keys, i)
      invariant forall j :: 0 <= j < i ==> qs[j].dim in keys
    {
      var q := qs[i];
      if q.dim !in t {
        assert q.dim !in keys;
        return TypeError;
      }
      t := AddContribution(t, ds, qs, answers, keys, i);
    }
    r := Ok(t);
  }

  /** `dims[q.dim].raw += s * (q.weight || 1)` for question `i`. */
  method AddContribution(t: map<string, DimScore>, ds: seq<Dimension>, qs: seq<Question>,
                         answers: seq<Option<int>>, keys: seq<string>, i: nat)
    returns (t': map<string, DimScore>)
    requires i < |qs| && qs[i].dim in t
    requires SummedTo(t, ds, qs, answers, keys, i)
    ensures SummedTo(t', ds, qs, answers, keys, i + 1)
  {
    var q := qs[i];
    var e := t[q.dim];
    t' := t[q.dim := e.(raw := e.raw + ScoreAnswer(q, AnswerAt(answers, i)) * EffectiveWeight(q))];
  }

  /** `dims[code].to100 = Math.round((raw - floor) / range * 100)` for every key. */
  method Normalise(table: map<string, DimScore>, keys: seq<string>, floor: int, range: int)
    returns (r: map<string, DimScore>)
    requires range > 0
    requires forall c :: c in table <==> c in keys
    ensures r.Keys == table.Keys
    ensures forall c :: c in table ==> r[c] == table[c].(to100 := Round((table[c].raw - floor) * 100, range))
  {
    r := table;
    for k := 0 to |keys|
      invariant r.Keys == table.Keys
      invariant forall c :: c in table ==>
                  r[c] == (if c in keys[..k] then table[c].(to100 := Round((table[c].raw - floor) * 100, range))
                           else table[c])
    {
      var e := r[keys[k]];
      r := r[keys[k] := e.(to100 := Round((e.raw - floor) * 100, range))];
      assert keys[..k + 1] == keys[..k] + [keys[k]];
    }
    assert keys[..|keys|] == keys;
  }

  /** `Object.fromEntries(Object.entries(dims).map(([k, v]) => [k, v.to100]))`. */
  function Dims100(dims: seq<DimScore>): (r: seq<(string, int)>)
    ensures |r| == |dims|
    ensures forall k :: 0 <= k < |r| ==> r[k] == (dims[k].code, dims[k].to100)
  {
    seq(|dims|, k requires 0 <= k < |dims| => (dims[k].code, dims[k].to100))
  }

  /** The object `{ [code]: to100 }` built from the table in key order; a later entry for the
      same code overwrites an earlier one, as an assignment to the same property does. */
  function Dim100Map(dims: seq<DimScore>): (r: map<string, int>)
    ensures forall k :: 0 <= k < |dims| ==> dims[k].code in r
    ensures forall c :: c in r ==> exists k :: 0 <= k < |dims| && dims[k].code == c && r[c] == dims[k].to100
  {
    if dims == [] then map[]
    else
      var n := |dims| - 1;
      var m := Dim100Map(dims[..n]);
      assert forall k :: 0 <= k < n ==> dims[..n][k] == dims[k];
      m[dims[n].code := dims[n].to100]
  }

  /** With distinct codes, every entry's own value is the one the object holds. */
  lemma {:induction false} Dim100MapAt(dims: seq<DimScore>, k: nat)
    requires k < |dims|
    requires forall i, j :: 0 <= i < j < |dims| ==> dims[i].code != dims[j].code
    ensures Dim100Map(dims)[dims[k].code] == dims[k].to100
  {
    var n := |dims| - 1;
    if k < n {
      Dim100MapAt(dims[..n], k);
    }
  }

  /** Every entry of a finished table carries the last definition of its code. */
  lemma DimsMeta(ds: seq<Dimension>, qs: seq<Question>, answers: seq<Option<int>>, floor: int, range: int,
                 dims: seq<DimScore>)
    requires range > 0
    requires DimsSpec(ds, qs, answers, floor, range) == Ok(dims)
    ensures |dims| == |Codes(ds)|
    ensures forall k :: 0 <= k < |dims| ==> dims[k].code == Codes(ds)[k] && dims[k].meta == LastDef(ds, dims[k].code)
  {
  }

  /** When no two definitions share a code, `dimensions.find` by code and the table entry's
      definition agree. */
  lemma FindDimIsLastDef(ds: seq<Dimension>, c: string)
    requires forall i, j :: 0 <= i < j < |ds| ==> ds[i].code != ds[j].code
    requires c in Codes(ds)
    ensures FindDim(ds, c) == Some(LastDef(ds, c))
  {
    CodesFacts(ds);
    LastDefIsLast(ds, c);
    var k :| 0 <= k < |ds| && ds[k] == LastDef(ds, c) && forall j :: k < j < |ds| ==> ds[j].code != c;
    var r := FindDim(ds, c);
    assert r.Some?;
    var k' :| 0 <= k' < |ds| && ds[k'] == r.value && r.value.code == c && forall j :: 0 <= j < k' ==> ds[j].code != c;
    assert k == k';
  }
}
