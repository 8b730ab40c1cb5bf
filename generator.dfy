/** One pass of generateChallenge's do…while loop and the loop as a whole
    (src/App.tsx:25-34, 190-267), with the random helpers replaced by a
    sequence of draws, one per pass. */
module Generator {
  import opened Text
  import opened Sequences
  import opened Countries
  import opened Predicates

  const MaxAttempts: nat := 100
  const MinAnswers: nat := 2
  const MaxAnswers: nat := 8

  /** The boolean attributes an oversized answer set may be narrowed by. */
  const ParamReducers: seq<string> := [
    "isCommonwealthMember",
    "isLandlocked",
    "isEuMember",
    "isNatoMember",
    "isAfricanUnionMember",
    "isIslamicCooperationMember",
    "isIccMember",
    "isNonAlignedMember"
  ]

  /** The random values one pass may consume: the challenge index, the
      parameter picks of checkChallenge, and the indices returned by the two
      possible calls of getRandomParamReducer. A pass ignores what it does not use. */
  datatype Draw = Draw(challengeIndex: int, pick: Pick, reducer1: int, reducer2: int)
  {
    predicate InRange()
    {
      && 0 <= challengeIndex < |Challenges|
      && pick.InRange()
      && 0 <= reducer1 < |ParamReducers|
      && 0 <= reducer2 < |ParamReducers|
    }
  }

  predicate AllInRange(draws: seq<Draw>)
  {
    forall d :: d in draws ==> d.InRange()
  }

  /** `matchingCountries.filter((country) => countriesData[country][searcher] === true)`. */
  function Narrow(data: Dataset, s: seq<string>, key: string): seq<string>
  {
    Select(data, s, HasAttribute(key))
  }

  /** How a pass ends: abandoned by the `continue` (the attempt counter is not
      incremented), or counted with its final matches and the filters it applied. */
  datatype Attempt = Abandoned | Counted(matching: seq<string>, searchers: seq<string>)

  function KindOf(d: Draw): ChallengeType
    requires d.InRange()
  {
    Challenges[d.challengeIndex].kind
  }

  function AttemptOf(data: Dataset, d: Draw): Attempt
    requires d.InRange()
  {
    var answers := Candidates(data, KindOf(d), d.pick);
    if |answers| <= MaxAnswers then Counted(answers, [])
    else
      var r1 := ParamReducers[d.reducer1];
      var m1 := Narrow(data, answers, r1);
      if |m1| < MinAnswers then Abandoned
      else if |m1| <= MaxAnswers then Counted(m1, [r1])
      else
        var r2 := ParamReducers[d.reducer2];
        Counted(Narrow(data, m1, r2), [r1, r2])
  }

  /** The description: the first "X" becomes the count, then the first "*"
      becomes the upper-cased parameter. */
  function Describe(template: string, count: nat, r: Replacement): string
  {
    ReplaceFirst(ReplaceFirst(template, 'X', Decimal(count)), '*', Shown(r))
  }

  /** The description of the challenge a draw picks, for `count` answers. */
  function Render(d: Draw, count: nat): string
    requires d.InRange()
  {
    Describe(Challenges[d.challengeIndex].Description(), count, ReplacementFor(KindOf(d), d.pick))
  }

  /** The outcome of every supplied draw's pass, in order. */
  function Passes(data: Dataset, draws: seq<Draw>): (r: seq<Attempt>)
    requires AllInRange(draws)
    ensures |r| == |draws|
    decreases |draws|
  {
    if draws == [] then []
    else
      assert AllInRange(draws[1..]) by {
        forall e | e in draws[1..] ensures e.InRange() { assert e in draws; }
      }
      [AttemptOf(data, draws[0])] + Passes(data, draws[1..])
  }

  lemma {:induction false} PassesIndex(data: Dataset, draws: seq<Draw>, k: nat)
    requires AllInRange(draws) && k < |draws|
    ensures draws[k].InRange() && Passes(data, draws)[k] == AttemptOf(data, draws[k])
    decreases k
  {
    assert draws[k] in draws;
    if k > 0 {
      assert AllInRange(draws[1..]) by {
        forall e | e in draws[1..] ensures e.InRange() { assert e in draws; }
      }
      PassesIndex(data, draws[1..], k - 1);
    }
  }

  /** How a call of generateChallenge ends. `pass` is the index of the
      accepted pass among the supplied draws; `attempts` is the counter's final
      value; `shown` is the value numberOfAnswers is left at. OutOfDraws is not
      in the source: it stops the model when the supplied draws run out. */
  datatype Generation =
    | Accepted(pass: nat, answers: seq<string>, searchers: seq<string>, attempts: nat)
    | GaveUp(attempts: nat, shown: nat)
    | OutOfDraws(attempts: nat, shown: nat)

  /** The loop from pass `i` on, with the counter at `attempt` and
      numberOfAnswers holding `shown`: an abandoned pass leaves the counter as
      it is, a counted pass moves it on, and a counted pass with two to eight
      matches ends the loop. */
  function Loop(passes: seq<Attempt>, i: nat, attempt: nat, shown: nat): Generation
    requires i <= |passes|
    decreases |passes| - i
  {
    if attempt >= MaxAttempts then GaveUp(attempt, shown)
    else if i == |passes| then OutOfDraws(attempt, shown)
    else
      match passes[i]
      case Abandoned => Loop(passes, i + 1, attempt, shown)
      case Counted(m, s) =>
        if MinAnswers <= |m| <= MaxAnswers then Accepted(i, m, s, attempt + 1)
        else Loop(passes, i + 1, attempt + 1, |m|)
  }

  /** The loop over the supplied draws, from a fresh counter. */
  function RunLoop(data: Dataset, draws: seq<Draw>, shown: nat): Generation
    requires AllInRange(draws)
  {
    Loop(Passes(data, draws), 0, 0, shown)
  }

  // ---------------------------------------------------------------------------
  // Descriptions

  /** Every template has exactly one "*", neither in the wording between it
      and the leading "X" nor in the wording after it, and ends with a period. */
  lemma TemplateShape(kind: ChallengeType)
    ensures '*' !in Wording(kind).0
    ensures '*' !in Wording(kind).1
    ensures |Wording(kind).1| > 0 && Wording(kind).1[|Wording(kind).1| - 1] == '.'
  {
    WordingHasNoStar(kind);
    WordingTailHasNoStar(kind);
    WordingEndsWithPeriod(kind);
  }

  lemma WordingHasNoStar(kind: ChallengeType)
    ensures '*' !in Wording(kind).0
  {
    if kind.ExactLength? || kind.ContainVowel? || kind.SingleOccurrenceVowel? {
      CountWordingHasNoStar(kind);
    } else {
      LetterWordingHasNoStar(kind);
    }
  }

  lemma CountWordingHasNoStar(kind: ChallengeType)
    requires kind.ExactLength? || kind.ContainVowel? || kind.SingleOccurrenceVowel?
    ensures '*' !in Wording(kind).0
  {
    match kind
    case ExactLength =>
      assert '*' !in " countries contain exactly ";
    case ContainVowel =>
      assert '*' !in " countries contain the vowel '";
    case SingleOccurrenceVowel =>
      // The two pieces of the wording, checked one at a time.
      var a, b := " countries contain only one", " occurrence of the vowel '";
      assert '*' !in a;
      assert '*' !in b;
      assert Wording(kind).0 == a + b;
  }

  lemma LetterWordingHasNoStar(kind: ChallengeType)
    requires kind.EndingLetter? || kind.BeginningLetter? || kind.MembersOf?
    ensures '*' !in Wording(kind).0
  {
    match kind
    case EndingLetter =>
      assert '*' !in " countries end with the letter '";
    case BeginningLetter =>
      assert '*' !in " countries begin with the letter '";
    case MembersOf =>
      assert '*' !in " countries that are members of '";
  }

  lemma WordingTailHasNoStar(kind: ChallengeType)
    ensures '*' !in Wording(kind).1
  {
    match kind
    case ExactLength =>
      assert '*' !in " letters.";
    case _ =>
      assert Wording(kind).1 == "'.";
  }

  lemma WordingEndsWithPeriod(kind: ChallengeType)
    ensures |Wording(kind).1| > 0 && Wording(kind).1[|Wording(kind).1| - 1] == '.'
  {
    match kind
    case ExactLength =>
    case _ =>
      assert Wording(kind).1 == "'.";
  }

  /** Rendering a template of the shape "X" + mid + "*" + tail. */
  lemma RenderShape(mid: string, tail: string, count: nat, r: Replacement)
    requires '*' !in mid
    ensures Describe("X" + mid + "*" + tail, count, r) == Decimal(count) + mid + Shown(r) + tail
  {
    var n, shown := Decimal(count), Shown(r);
    ReplaceCount(mid, tail, n);
    DecimalHasNoPlaceholder(count, '*');
    ReplaceParameter(n, mid, tail, shown);
    assert n + (mid + (shown + tail)) == n + mid + shown + tail;
  }

  /** The leading "X" is the first one. */
  lemma ReplaceCount(mid: string, tail: string, n: string)
    ensures ReplaceFirst("X" + mid + "*" + tail, 'X', n) == n + (mid + ("*" + tail))
  {
    var rest := mid + ("*" + tail);
    assert "X" + mid + "*" + tail == "X" + rest;
    ReplaceFirstAtHead('X', rest, n);
  }

  /** With no "*" in the count or in mid, the first "*" is the template's own. */
  lemma ReplaceParameter(n: string, mid: string, tail: string, shown: string)
    requires '*' !in n && '*' !in mid
    ensures ReplaceFirst(n + (mid + ("*" + tail)), '*', shown) == n + (mid + (shown + tail))
  {
    ReplaceFirstAfter(n, mid + ("*" + tail), '*', shown);
    ReplaceFirstAfter(mid, "*" + tail, '*', shown);
    ReplaceFirstAtHead('*', tail, shown);
  }

  /** Rendering puts the count where "X" was and the upper-cased parameter
      where "*" was, and keeps the rest of the template. */
  lemma DescribeFillsPlaceholders(kind: ChallengeType, count: nat, r: Replacement)
    ensures Describe(Template(kind), count, r) == Decimal(count) + Wording(kind).0 + Shown(r) + Wording(kind).1
  {
    TemplateShape(kind);
    RenderShape(Wording(kind).0, Wording(kind).1, count, r);
  }

  // ---------------------------------------------------------------------------
  // One pass

  /** The narrowing follows the source: a filter only when more than eight
      names match, abandonment only right after the first filter, and a
      second filter only when more than eight remain after the first. */
  lemma AttemptSteps(data: Dataset, d: Draw)
    requires d.InRange()
    ensures var answers := Candidates(data, KindOf(d), d.pick);
      var r1 := ParamReducers[d.reducer1];
      var m1 := Narrow(data, answers, r1);
      match AttemptOf(data, d)
      case Abandoned => |answers| > MaxAnswers && |m1| < MinAnswers
      case Counted(m, s) =>
        && (s == [] <==> |answers| <= MaxAnswers)
        && (s == [] ==> m == answers)
        && (|s| == 1 ==> s == [r1] && m == m1 && MinAnswers <= |m1| <= MaxAnswers)
        && (|s| == 2 ==> s[0] == r1 && |m1| > MaxAnswers && m == Narrow(data, m1, s[1]))
        && |s| <= 2
        && forall k :: k in s ==> k in ParamReducers
  {
  }

  /** The matches of a counted pass are exactly the dataset names that pass
      the primary test and every applied filter, in dataset order. */
  lemma {:induction false} AttemptMatches(data: Dataset, d: Draw, name: string)
    requires data.WellFormed() && d.InRange()
    requires AttemptOf(data, d).Counted?
    requires KindOf(d) != MembersOf
    ensures var a := AttemptOf(data, d);
      name in a.matching <==>
        && name in data.names
        && Holds(data, CriterionFor(KindOf(d), d.pick), name)
        && forall k :: k in a.searchers ==> Flagged(data, name, k)
  {
    var c := CriterionFor(KindOf(d), d.pick);
    var answers := Candidates(data, KindOf(d), d.pick);
    var r1 := ParamReducers[d.reducer1];
    var m1 := Narrow(data, answers, r1);
    SelectMembers(data, data.names, c, name);
    if |answers| > MaxAnswers {
      SelectMembers(data, answers, HasAttribute(r1), name);
      if |m1| > MaxAnswers {
        SelectMembers(data, m1, HasAttribute(ParamReducers[d.reducer2]), name);
      }
    }
  }

  lemma AttemptFromDataset(data: Dataset, d: Draw)
    requires data.WellFormed() && d.InRange()
    requires AttemptOf(data, d).Counted?
    ensures IsSubsequence(AttemptOf(data, d).matching, data.names)
    ensures NoDuplicates(AttemptOf(data, d).matching)
  {
    var answers := Candidates(data, KindOf(d), d.pick);
    var r1 := ParamReducers[d.reducer1];
    var m1 := Narrow(data, answers, r1);
    CandidatesFromDataset(data, KindOf(d), d.pick);
    var m := AttemptOf(data, d).matching;
    if |answers| > MaxAnswers {
      SelectIsSubsequence(data, answers, HasAttribute(r1));
      SubsequenceTransitive(m1, answers, data.names);
      if |m1| > MaxAnswers {
        SelectIsSubsequence(data, m1, HasAttribute(ParamReducers[d.reducer2]));
        SubsequenceTransitive(m, m1, data.names);
      }
    }
    SubsequenceNoDuplicates(m, data.names);
  }

  /** The matches of a counted pass are distinct dataset names. */
  lemma CountedNamesFromDataset(data: Dataset, d: Draw)
    requires data.WellFormed() && d.InRange()
    requires AttemptOf(data, d).Counted?
    ensures NoDuplicates(AttemptOf(data, d).matching)
    ensures forall a :: a in AttemptOf(data, d).matching ==> a in data.names
  {
    var m := AttemptOf(data, d).matching;
    AttemptFromDataset(data, d);
    forall a | a in m ensures a in data.names {
      SubsequenceMembers(m, data.names, a);
    }
  }

  // ---------------------------------------------------------------------------
  // The loop

  /** An accepted challenge comes from a pass at or after the start that was
      counted with between two and eight matches; the counter stays within the cap. */
  lemma {:induction false} AcceptedComesFromCountedPass(passes: seq<Attempt>, i: nat, attempt: nat, shown: nat)
    requires i <= |passes|
    ensures var g := Loop(passes, i, attempt, shown);
      g.Accepted? ==>
        && i <= g.pass < |passes|
        && passes[g.pass] == Counted(g.answers, g.searchers)
        && MinAnswers <= |g.answers| <= MaxAnswers
        && attempt < g.attempts <= MaxAttempts
    decreases |passes| - i
  {
    if attempt < MaxAttempts && i < |passes| {
      match passes[i]
      case Abandoned =>
        AcceptedComesFromCountedPass(passes, i + 1, attempt, shown);
      case Counted(m, s) =>
        if !(MinAnswers <= |m| <= MaxAnswers) {
          AcceptedComesFromCountedPass(passes, i + 1, attempt + 1, |m|);
        }
    }
  }

  /** For an accepted challenge: it comes from one of the supplied draws; its
      answers number two to eight, come from the dataset without repeats and in
      its order, and are exactly the names passing the challenge's test and its
      at most two filters; membersOf is never accepted. */
  lemma AcceptedAnswers(data: Dataset, draws: seq<Draw>, shown: nat, name: string)
    requires data.WellFormed() && AllInRange(draws)
    requires RunLoop(data, draws, shown).Accepted?
    ensures var g := RunLoop(data, draws, shown);
      && g.pass < |draws|
      && var d := draws[g.pass];
      && d.InRange()
      && AttemptOf(data, d) == Counted(g.answers, g.searchers)
      && MinAnswers <= |g.answers| <= MaxAnswers
      && IsSubsequence(g.answers, data.names)
      && NoDuplicates(g.answers)
      && |g.searchers| <= 2
      && (forall k :: k in g.searchers ==> k in ParamReducers)
      && KindOf(d) != MembersOf
      && (name in g.answers <==>
            && name in data.names
            && Holds(data, CriterionFor(KindOf(d), d.pick), name)
            && forall k :: k in g.searchers ==> Flagged(data, name, k))
  {
    var g := RunLoop(data, draws, shown);
    AcceptedComesFromCountedPass(Passes(data, draws), 0, 0, shown);
    var d := draws[g.pass];
    PassesIndex(data, draws, g.pass);
    AttemptSteps(data, d);
    AttemptFromDataset(data, d);
    AttemptMatches(data, d, name);
  }

  /** The counter never passes the cap, and giving up happens exactly at it. */
  lemma {:induction false} AttemptsBounded(passes: seq<Attempt>, i: nat, attempt: nat, shown: nat)
    requires i <= |passes| && attempt <= MaxAttempts
    ensures var g := Loop(passes, i, attempt, shown);
      attempt <= g.attempts <= MaxAttempts && (g.GaveUp? <==> g.attempts == MaxAttempts && !g.Accepted?)
    decreases |passes| - i
  {
    if attempt < MaxAttempts && i < |passes| {
      match passes[i]
      case Abandoned =>
        AttemptsBounded(passes, i + 1, attempt, shown);
      case Counted(m, s) =>
        if !(MinAnswers <= |m| <= MaxAnswers) {
          AttemptsBounded(passes, i + 1, attempt + 1, |m|);
        }
    }
  }

  /** The number of counted passes from pass `i` on. */
  function CountedPasses(passes: seq<Attempt>, i: nat): nat
    requires i <= |passes|
    decreases |passes| - i
  {
    if i == |passes| then 0
    else (if passes[i].Counted? then 1 else 0) + CountedPasses(passes, i + 1)
  }

  /** Giving up takes as many counted passes as the cap leaves; abandoned
      passes do not bring it closer. */
  lemma {:induction false} GaveUpNeedsCountedPasses(passes: seq<Attempt>, i: nat, attempt: nat, shown: nat)
    requires i <= |passes| && attempt <= MaxAttempts
    requires Loop(passes, i, attempt, shown).GaveUp?
    ensures CountedPasses(passes, i) >= MaxAttempts - attempt
    decreases |passes| - i
  {
    if attempt < MaxAttempts {
      match passes[i]
      case Abandoned =>
        GaveUpNeedsCountedPasses(passes, i + 1, attempt, shown);
      case Counted(m, s) =>
        GaveUpNeedsCountedPasses(passes, i + 1, attempt + 1, |m|);
    }
  }

  /** However many passes are abandoned, the counter stays where it was: the
      loop as written does not terminate on abandoned passes alone. */
  lemma {:induction false} AbandonedPassesAreNotCounted(passes: seq<Attempt>, i: nat, attempt: nat, shown: nat)
    requires i <= |passes| && attempt < MaxAttempts
    requires forall k :: i <= k < |passes| ==> passes[k].Abandoned?
    ensures Loop(passes, i, attempt, shown) == OutOfDraws(attempt, shown)
    decreases |passes| - i
  {
    if i < |passes| {
      assert passes[i].Abandoned?;
      AbandonedPassesAreNotCounted(passes, i + 1, attempt, shown);
    }
  }

  /** A membersOf pass is always counted, with no answers. */
  lemma MembersOfPassIsEmpty(data: Dataset, d: Draw)
    requires d.InRange() && KindOf(d) == MembersOf
    ensures AttemptOf(data, d) == Counted([], [])
  {
  }

  /** Counted passes with no matches, as many as the cap leaves, make the
      loop give up at the cap. */
  lemma {:induction false} EmptyPassesGiveUp(passes: seq<Attempt>, i: nat, attempt: nat, shown: nat)
    requires i <= |passes| && attempt <= MaxAttempts
    requires MaxAttempts - attempt <= |passes| - i
    requires forall j :: i <= j < |passes| ==> passes[j] == Counted([], [])
    ensures Loop(passes, i, attempt, shown) == GaveUp(MaxAttempts, if attempt == MaxAttempts then shown else 0)
    decreases |passes| - i
  {
    if attempt < MaxAttempts {
      EmptyPassesGiveUp(passes, i + 1, attempt + 1, 0);
    }
  }

  /** One hundred membersOf draws end the loop: it gives up at the cap with
      numberOfAnswers left at zero. */
  lemma MembersOfDrawsGiveUp(data: Dataset, draws: seq<Draw>, shown: nat)
    requires AllInRange(draws) && |draws| >= MaxAttempts
    requires forall d :: d in draws ==> d.InRange() && KindOf(d) == MembersOf
    ensures RunLoop(data, draws, shown) == GaveUp(MaxAttempts, 0)
  {
    var passes := Passes(data, draws);
    forall j | 0 <= j < |passes|
      ensures passes[j] == Counted([], [])
    {
      PassesIndex(data, draws, j);
      assert draws[j] in draws;
      MembersOfPassIsEmpty(data, draws[j]);
    }
    EmptyPassesGiveUp(passes, 0, 0, shown);
  }

  /** The worked example: Chad, Mali and Togo, challenge exactLength with 4. */
  lemma FourLetterExample(records: map<string, CountryRecord>)
    ensures var data := Dataset(["Chad", "Mali", "Togo"], records);
      var d := Draw(0, Pick(4, 0, 65), 0, 0);
      && RunLoop(data, [d], 0) == Accepted(0, ["Chad", "Mali", "Togo"], [], 1)
      && Render(d, 3) == "3 countries contain exactly 4 letters."
  {
    var data := Dataset(["Chad", "Mali", "Togo"], records);
    var d := Draw(0, Pick(4, 0, 65), 0, 0);
    FourLetterNames(data);
    assert AttemptOf(data, d) == Counted(["Chad", "Mali", "Togo"], []);
    assert Passes(data, [d]) == [AttemptOf(data, d)];
    FourLetterDescription(d, 3);
  }

  lemma FourLetterNames(data: Dataset)
    requires data.names == ["Chad", "Mali", "Togo"]
    ensures Candidates(data, ExactLength, Pick(4, 0, 65)) == ["Chad", "Mali", "Togo"]
  {
    var c := LengthIs(4);
    assert CriterionFor(ExactLength, Pick(4, 0, 65)) == c;
    assert |"Chad"| == 4 && |"Mali"| == 4 && |"Togo"| == 4;
    SelectAll(data, data.names, c);
  }

  lemma FourLetterDescription(d: Draw, count: nat)
    requires d.InRange() && d.challengeIndex == 0 && d.pick.length == 4 && count == 3
    ensures Render(d, count) == "3 countries contain exactly 4 letters."
  {
    assert KindOf(d) == ExactLength;
    assert Challenges[d.challengeIndex].Description() == Template(ExactLength);
    assert ReplacementFor(KindOf(d), d.pick) == Num(d.pick.length);
    DescribeFillsPlaceholders(ExactLength, count, Num(d.pick.length));
    FourLetterWording(count, d.pick.length);
  }

  lemma FourLetterWording(count: nat, n: nat)
    requires count == 3 && n == 4
    ensures Decimal(count) + Wording(ExactLength).0 + Shown(Num(n)) + Wording(ExactLength).1
         == "3 countries contain exactly 4 letters."
  {
    assert Decimal(count) == "3" && Shown(Num(n)) == "4";
    var head, tail := "3 countries contain exactly ", "4 letters.";
    assert "3" + Wording(ExactLength).0 == head;
    assert "4" + Wording(ExactLength).1 == tail;
    assert head + tail == "3 countries contain exactly 4 letters.";
  }
}
