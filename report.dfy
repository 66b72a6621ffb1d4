/** The report page: the stored quiz result turned into the profile shown, the percentages of
    the eight counters, the metric bars and the name in the heading. */
module Report {
  import opened Wrappers
  import opened Scoring
  import opened Quiz

  /** The sixteen codes that have an authored pet profile. */
  const ProfileCodes: set<string> := {
    "ESTJ", "ESTP", "ESFJ", "ESFP", "ENTJ", "ENTP", "ENFJ", "ENFP",
    "ISTJ", "ISTP", "ISFJ", "ISFP", "INTJ", "INTP", "INFJ", "INFP"}

  /** The profile shown for a code nobody authored. */
  const FallbackProfile := "INFP"

  /** `petProfiles[data.mbti] || petProfiles.INFP`: the profile the report shows is always an
      authored one, the code's own when it has one. */
  function ProfileKey(mbti: string): (r: string)
    ensures r in ProfileCodes
    ensures mbti in ProfileCodes ==> r == mbti
    ensures mbti !in ProfileCodes ==> r == FallbackProfile
  {
    if mbti in ProfileCodes then mbti else FallbackProfile
  }

  /** Every code the quiz can produce has its own profile, so the fallback never applies to a
      result the quiz stored. */
  lemma QuizCodesHaveProfiles(scores: map<char, int>)
    requires Traits <= scores.Keys
    ensures Mbti(scores) in ProfileCodes
    ensures ProfileKey(Mbti(scores)) == Mbti(scores)
  {
    var m := Mbti(scores);
    assert m == [m[0], m[1], m[2], m[3]];
    assert m[0] == 'E' || m[0] == 'I';
    assert m[1] == 'S' || m[1] == 'N';
    assert m[2] == 'T' || m[2] == 'F';
    assert m[3] == 'J' || m[3] == 'P';
  }

  /** `Math.round(x / total * 100)` for a non-zero `total`, exactly (the quiz's totals make
      every quotient a short binary fraction). */
  function Percent(x: int, total: int): int
    requires total != 0
  {
    if total > 0 then Round(100 * x, total) else Round(-100 * x, -total)
  }

  /** The percentage is the integer nearest to `100 * x / total`, halves going up. */
  lemma PercentNearest(x: int, total: int)
    requires total > 0
    ensures 2 * total * Percent(x, total) <= 200 * x + total < 2 * total * (Percent(x, total) + 1)
  {
  }

  /** Integer division by a positive number keeps the order of numerators. */
  lemma DivMonotone(a: int, b: int, d: int)
    requires a <= b && d > 0
    ensures a / d <= b / d
  {
    var p, q := a / d, b / d;
    if p > q {
      MulMonotone(d, q + 1, p);
      assert false;
    }
  }

  /** Multiplying by a non-negative number keeps the order. */
  lemma MulMonotone(d: int, p: int, q: int)
    requires d >= 0 && p <= q
    ensures d * p <= d * q
  {
  }

  /** A count between zero and the total is a percentage between 0 and 100. */
  lemma PercentRange(x: int, total: int)
    requires 0 <= x <= total && total > 0
    ensures 0 <= Percent(x, total) <= 100
  {
    DivAtMost(200 * x + total, 2 * total, 100);
  }

  /** A quotient of a numerator in `0 .. d * (k + 1) - 1` lies in `0 .. k`. */
  lemma DivAtMost(a: int, d: int, k: int)
    requires d > 0 && k >= 0 && 0 <= a < d * (k + 1)
    ensures 0 <= a / d <= k
  {
    var q := a / d;
    if q > k {
      MulMonotone(d, k + 1, q);
      assert false;
    }
    if q < 0 {
      MulMonotone(d, q, -1);
      assert false;
    }
  }

  /** Nothing counted is zero percent. */
  lemma PercentZero(total: int)
    requires total != 0
    ensures Percent(0, total) == 0
  {
    var d := if total > 0 then total else -total;
    DivAtMost(d, 2 * d, 0);
  }

  /** A larger count never gets a smaller percentage. */
  lemma PercentMonotone(x: int, y: int, total: int)
    requires x <= y && total > 0
    ensures Percent(x, total) <= Percent(y, total)
  {
    DivMonotone(200 * x + total, 200 * y + total, 2 * total);
  }

  /** `normalizeScore(raw)`: each counter as a rounded percentage of the sum of all eight, a
      sum of zero counting as one. */
  function NormalizeScore(raw: map<char, int>): (r: map<char, int>)
    requires Traits <= raw.Keys
    ensures r.Keys == Traits
    ensures forall t :: t in Traits && raw[t] == 0 ==> r[t] == 0
    ensures Total(raw) == 0 ==> forall t :: t in Traits ==> r[t] == 100 * raw[t]
    ensures Total(raw) != 0 ==> forall t :: t in Traits ==> r[t] == Percent(raw[t], Total(raw))
  {
    var total := Total(raw);
    var safeTotal := if total == 0 then 1 else total;
    PercentZero(safeTotal);
    map t | t in Traits :: Percent(raw[t], safeTotal)
  }

  /** With non-negative counters every percentage lies in 0..100, and the order of the counters
      is kept. */
  lemma NormalizeBounds(raw: map<char, int>)
    requires Traits <= raw.Keys
    requires forall t :: t in Traits ==> raw[t] >= 0
    ensures forall t :: t in Traits ==> 0 <= NormalizeScore(raw)[t] <= 100
    ensures forall a, b :: a in Traits && b in Traits && raw[a] <= raw[b] ==>
              NormalizeScore(raw)[a] <= NormalizeScore(raw)[b]
  {
    var total := Total(raw);
    if total > 0 {
      forall t | t in Traits ensures 0 <= NormalizeScore(raw)[t] <= 100 {
        PercentRange(raw[t], total);
      }
      forall a, b | a in Traits && b in Traits && raw[a] <= raw[b]
        ensures NormalizeScore(raw)[a] <= NormalizeScore(raw)[b]
      {
        PercentMonotone(raw[a], raw[b], total);
      }
    }
  }

  /** The two percentages of a pair whose counters add up to four, out of sixteen answers. */
  lemma PairOfSixteen(x: int)
    requires 0 <= x <= 4
    ensures Percent(x, 16) + Percent(4 - x, 16) == if x == 2 then 26 else 25
  {
    if x == 0 {
      assert Percent(0, 16) == 0 && Percent(4, 16) == 25;
    } else if x == 1 {
      assert Percent(1, 16) == 6 && Percent(3, 16) == 19;
    } else if x == 2 {
      assert Percent(2, 16) == 13;
    } else if x == 3 {
      assert Percent(3, 16) == 19 && Percent(1, 16) == 6;
    } else {
      assert Percent(4, 16) == 25 && Percent(0, 16) == 0;
    }
  }

  /** After a finished quiz the percentages are taken over all sixteen answers, so the two
      sides of each metric row add up to 25, or 26 on a 2-2 tie, never to 100. */
  lemma FinishedQuizPercentages(scores: map<char, int>)
    requires Counters(scores, |Questions|)
    ensures var r := NormalizeScore(scores);
            (r['E'] + r['I'] == if scores['E'] == 2 then 26 else 25) &&
            (r['S'] + r['N'] == if scores['S'] == 2 then 26 else 25) &&
            (r['T'] + r['F'] == if scores['T'] == 2 then 26 else 25) &&
            (r['J'] + r['P'] == if scores['J'] == 2 then 26 else 25)
  {
    FullQuizPairs(scores);
    assert Total(scores) == 16;
    PairOfSixteen(scores['E']);
    PairOfSixteen(scores['S']);
    PairOfSixteen(scores['T']);
    PairOfSixteen(scores['J']);
  }

  /** `Math.max(ls, 6)`: the filled width of a metric bar, never below 6%. */
  function BarWidth(ls: int): (w: int)
    ensures w >= 6 && w >= ls
    ensures w == ls || w == 6
  {
    if ls > 6 then ls else 6
  }

  /** `data.nickname || "你"`: the name in the heading is never blank. */
  function DisplayName(nickname: string): (r: string)
    ensures r != ""
    ensures nickname != "" ==> r == nickname
    ensures nickname == "" ==> r == "你"
  {
    if nickname == "" then "你" else nickname
  }

  /** What the report shows of a stored result. */
  datatype ReportView = ReportView(name: string, profile: string, mbti: string, percentages: map<char, int>)

  /** `renderReport()`: nothing stored shows the empty-state card (`None`); otherwise the
      heading name, the profile, the stored code and the percentages. */
  function Report(stored: Option<QuizResult>): (v: Option<ReportView>)
    requires stored.Some? ==> Traits <= stored.value.scores.Keys
    ensures v.Some? <==> stored.Some?
    ensures v.Some? ==> v.value.profile in ProfileCodes && v.value.name != "" &&
                        v.value.mbti == stored.value.mbti
    ensures v.Some? ==> v.value.profile == ProfileKey(stored.value.mbti) &&
                        v.value.name == DisplayName(stored.value.nickname) &&
                        v.value.percentages == NormalizeScore(stored.value.scores)
  {
    match stored
    case None => None
    case Some(data) =>
      Some(ReportView(DisplayName(data.nickname), ProfileKey(data.mbti), data.mbti, NormalizeScore(data.scores)))
  }

  /** A report of what a finished quiz stored shows that quiz's own profile and its counters'
      percentages; the heading uses the trimmed name when there is one. */
  lemma ReportOfFinishedQuiz(userName: string, scores: map<char, int>)
    requires Counters(scores, |Questions|)
    ensures var v := Report(Some(Finished(userName, scores))).value;
            v.profile == Mbti(scores) && v.mbti == Mbti(scores) &&
            v.percentages == NormalizeScore(scores) &&
            (forall t :: t in Traits ==> 0 <= v.percentages[t] <= 100)
  {
    QuizCodesHaveProfiles(scores);
    NormalizeBounds(scores);
  }
}
