/** The pet-persona quiz: sixteen two-option questions, each option naming one MBTI letter;
    `choose` counts the picked letter and moves to the next question, and after the last one
    `finishQuiz` reads off one letter per pair and stores the result. */
module Quiz {
  import opened Wrappers
  import opened Text

  /** The letters of each question's first and second option, in question order. Texts are
      presentation and are not modelled. */
  const Questions: seq<(char, char)> := [
    ('E', 'I'), ('N', 'S'), ('F', 'T'), ('J', 'P'),
    ('E', 'I'), ('S', 'N'), ('F', 'T'), ('P', 'J'),
    ('E', 'I'), ('S', 'N'), ('T', 'F'), ('J', 'P'),
    ('E', 'I'), ('S', 'N'), ('T', 'F'), ('J', 'P')]

  /** `dimensionPairs`. */
  const Pairs: seq<(char, char)> := [('E', 'I'), ('S', 'N'), ('T', 'F'), ('J', 'P')]

  /** The eight counters' keys. */
  const Traits: set<char> := {'E', 'I', 'S', 'N', 'T', 'F', 'J', 'P'}

  /** The letter of option `index` of question `q`. */
  function OptionTrait(q: nat, index: nat): char
    requires q < |Questions| && index < 2
  {
    if index == 0 then Questions[q].0 else Questions[q].1
  }

  /** Question `q` asks about pair `q % 4`: its two options carry that pair's two letters. */
  lemma QuestionPair(q: nat)
    requires q < |Questions|
    ensures Questions[q] == Pairs[q % 4] || Questions[q] == (Pairs[q % 4].1, Pairs[q % 4].0)
  {
    var qs := Questions;
    assert qs[0] == ('E', 'I') && qs[1] == ('N', 'S') && qs[2] == ('F', 'T') && qs[3] == ('J', 'P');
    assert qs[4] == ('E', 'I') && qs[5] == ('S', 'N') && qs[6] == ('F', 'T') && qs[7] == ('P', 'J');
    assert qs[8] == ('E', 'I') && qs[9] == ('S', 'N') && qs[10] == ('T', 'F') && qs[11] == ('J', 'P');
    assert qs[12] == ('E', 'I') && qs[13] == ('S', 'N') && qs[14] == ('T', 'F') && qs[15] == ('J', 'P');
  }

  /** The sum of the eight counters. */
  function Total(scores: map<char, int>): int
    requires Traits <= scores.Keys
  {
    scores['E'] + scores['I'] + scores['S'] + scores['N'] + scores['T'] + scores['F'] + scores['J'] + scores['P']
  }

  /** How many of the first `n` questions ask about pair `p`. */
  function Asked(n: nat, p: nat): (c: nat)
    ensures c <= n
  {
    if n == 0 then 0 else Asked(n - 1, p) + (if (n - 1) % 4 == p then 1 else 0)
  }

  /** Every block of four questions asks about each pair once. */
  lemma {:induction false} AskedBlocks(m: nat, p: nat)
    requires p < 4
    ensures Asked(4 * m, p) == m
  {
    if m > 0 {
      AskedBlocks(m - 1, p);
      var n := 4 * (m - 1);
      assert n % 4 == 0;
      AskedFour(n, p);
      assert 4 * m == n + 4;
    }
  }

  /** The four questions after a multiple of four ask about each pair once. */
  lemma AskedFour(n: nat, p: nat)
    requires p < 4 && n % 4 == 0
    ensures Asked(n + 4, p) == Asked(n, p) + 1
  {
    assert (n + 1) % 4 == 1 && (n + 2) % 4 == 2 && (n + 3) % 4 == 3;
    assert Asked(n + 1, p) == Asked(n, p) + (if p == 0 then 1 else 0);
    assert Asked(n + 2, p) == Asked(n + 1, p) + (if p == 1 then 1 else 0);
    assert Asked(n + 3, p) == Asked(n + 2, p) + (if p == 2 then 1 else 0);
    assert Asked(n + 4, p) == Asked(n + 3, p) + (if p == 3 then 1 else 0);
  }

  /** The counters after `n` answers: all eight exist and are non-negative, and each pair's two
      add up to the number of that pair's questions among the first `n`. */
  ghost predicate Counters(scores: map<char, int>, n: nat) {
    scores.Keys == Traits &&
    (forall t :: t in scores ==> scores[t] >= 0) &&
    scores['E'] + scores['I'] == Asked(n, 0) && scores['S'] + scores['N'] == Asked(n, 1) &&
    scores['T'] + scores['F'] == Asked(n, 2) && scores['J'] + scores['P'] == Asked(n, 3)
  }

  /** The counters after answering question `n` with option `index`: one more for that
      option's letter, every other counter as it was. */
  function Counted(scores: map<char, int>, n: nat, index: nat): (r: map<char, int>)
    requires n < |Questions| && index < 2 && OptionTrait(n, index) in scores
    ensures r.Keys == scores.Keys
    ensures r[OptionTrait(n, index)] == scores[OptionTrait(n, index)] + 1
    ensures forall c :: c in scores && c != OptionTrait(n, index) ==> r[c] == scores[c]
  {
    var t := OptionTrait(n, index);
    scores[t := scores[t] + 1]
  }

  /** Counting one more answer to question `n` keeps the counters consistent. */
  lemma CountAnswer(scores: map<char, int>, n: nat, index: nat)
    requires n < |Questions| && index < 2 && Counters(scores, n)
    ensures Counters(Counted(scores, n, index), n + 1)
  {
    var t := OptionTrait(n, index);
    AnswerLetter(n, index);
    PairAfter(scores, t, 'E', 'I');
    PairAfter(scores, t, 'S', 'N');
    PairAfter(scores, t, 'T', 'F');
    PairAfter(scores, t, 'J', 'P');
    AskedNext(n);
  }

  /** One more for letter `t` adds one to the pair holding `t` and nothing to any other. */
  lemma PairAfter(scores: map<char, int>, t: char, a: char, b: char)
    requires t in scores && a in scores && b in scores && a != b
    ensures var r := scores[t := scores[t] + 1];
            r[a] + r[b] == scores[a] + scores[b] + (if t == a || t == b then 1 else 0)
  {
  }

  /** Question `n` adds one to the count of pair `n % 4` only. */
  lemma AskedNext(n: nat)
    ensures forall p :: 0 <= p < 4 ==> Asked(n + 1, p) == Asked(n, p) + (if n % 4 == p then 1 else 0)
  {
  }

  /** The letter of an answer to question `n` belongs to pair `n % 4`. */
  lemma AnswerLetter(n: nat, index: nat)
    requires n < |Questions| && index < 2
    ensures var t := OptionTrait(n, index);
            (n % 4 == 0 ==> t == 'E' || t == 'I') && (n % 4 == 1 ==> t == 'S' || t == 'N') &&
            (n % 4 == 2 ==> t == 'T' || t == 'F') && (n % 4 == 3 ==> t == 'J' || t == 'P')
  {
    QuestionPair(n);
  }

  /** Every question asks about exactly one pair. */
  lemma {:induction false} AskedSum(n: nat)
    ensures Asked(n, 0) + Asked(n, 1) + Asked(n, 2) + Asked(n, 3) == n
  {
    if n > 0 {
      AskedSum(n - 1);
    }
  }

  /** Consistent counters add up to the number of questions answered. */
  lemma CountersTotal(scores: map<char, int>, n: nat)
    requires Counters(scores, n)
    ensures Total(scores) == n
  {
    AskedSum(n);
  }

  /** The letter `finishQuiz` picks from one pair: the first one unless the second has the
      higher count. */
  function Pick(scores: map<char, int>, pair: (char, char)): char
    requires pair.0 in scores && pair.1 in scores
  {
    if scores[pair.0] >= scores[pair.1] then pair.0 else pair.1
  }

  /** `pairs.map(([a, b]) => scores[a] >= scores[b] ? a : b).join("")`. */
  function Letters(scores: map<char, int>, pairs: seq<(char, char)>): (r: string)
    requires forall k :: 0 <= k < |pairs| ==> pairs[k].0 in scores && pairs[k].1 in scores
    ensures |r| == |pairs|
    ensures forall k :: 0 <= k < |pairs| ==> r[k] == Pick(scores, pairs[k])
  {
    if pairs == [] then []
    else [Pick(scores, pairs[0])] + Letters(scores, pairs[1..])
  }

  /** The four-letter code: the k-th letter comes from the k-th pair, and a tie goes to E, S,
      T or J. */
  function Mbti(scores: map<char, int>): (r: string)
    requires Traits <= scores.Keys
    ensures |r| == 4
    ensures forall k :: 0 <= k < 4 ==>
              (r[k] == Pairs[k].0 <==> scores[Pairs[k].0] >= scores[Pairs[k].1]) &&
              (r[k] == Pairs[k].0 || r[k] == Pairs[k].1)
  {
    Letters(scores, Pairs)
  }

  /** What `finishQuiz` stores: the trimmed name, the code and the counters. The timestamp is
      not modelled. */
  datatype QuizResult = QuizResult(nickname: string, mbti: string, scores: map<char, int>)

  /** The result stored for a name field's value and the final counters. */
  function Finished(userName: string, scores: map<char, int>): QuizResult
    requires Traits <= scores.Keys
  {
    QuizResult(Trim(userName), Mbti(scores), scores)
  }

  /** The quiz `state` and the name field the result reads. */
  class QuizState {
    var current: nat
    var scores: map<char, int>
    var userName: string
    var saved: Option<QuizResult>

    /** The cursor is within the quiz, the counters are consistent with it (see `Counters`;
        by `CountersTotal` they then add up to the cursor), and the result is stored exactly
        once all questions are answered. */
    ghost predicate Valid()
      reads this
    {
      current <= |Questions| &&
      Counters(scores, current) &&
      (saved.Some? <==> current == |Questions|)
    }

    /** The initial state: first question, all counters zero. */
    constructor (name: string)
      ensures Valid() && current == 0 && userName == name && saved == None
      ensures forall t :: t in Traits ==> scores[t] == 0
    {
      current := 0;
      scores := map['E' := 0, 'I' := 0, 'S' := 0, 'N' := 0, 'T' := 0, 'F' := 0, 'J' := 0, 'P' := 0];
      userName := name;
      saved := None;
    }

    /** `choose(index)`: one more for the picked option's letter and no other counter, the next
        question, and `finishQuiz` exactly when that was the last question. */
    method Choose(index: nat)
      requires Valid() && current < |Questions| && index < 2
      modifies this`current, this`scores, this`saved
      ensures Valid()
      ensures current == old(current) + 1
      ensures scores == Counted(old(scores), old(current), index)
      ensures current == |Questions| ==> saved == Some(Finished(userName, scores))
      ensures current < |Questions| ==> saved == old(saved)
    {
      CountAnswer(scores, current, index);
      scores := Counted(scores, current, index);
      current := current + 1;
      if current >= |Questions| {
        FinishQuiz();
      }
    }

    /** `finishQuiz()`: the code and the stored result. */
    method FinishQuiz()
      requires Traits <= scores.Keys
      modifies this`saved
      ensures saved == Some(Finished(userName, scores))
    {
      saved := Some(Finished(userName, scores));
    }
  }

  /** After all sixteen answers each pair's two counters add up to four and all eight add up to
      sixteen. */
  lemma FullQuizPairs(scores: map<char, int>)
    requires Counters(scores, |Questions|)
    ensures scores['E'] + scores['I'] == 4 && scores['S'] + scores['N'] == 4
    ensures scores['T'] + scores['F'] == 4 && scores['J'] + scores['P'] == 4
    ensures Total(scores) == 16
  {
    AskedBlocks(4, 0);
    AskedBlocks(4, 1);
    AskedBlocks(4, 2);
    AskedBlocks(4, 3);
  }
}
