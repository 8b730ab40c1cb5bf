/** The quiz state of the App component (src/App.tsx:22-23, 159-172) with
    generateChallenge (src/App.tsx:190-267) and handleSubmit
    (src/App.tsx:297-313) as methods that update it in place. React's state
    setters become field assignments; the module-level paramReducer and
    searcherArray become fields too. */
module Game {
  import opened Optional
  import opened Text
  import opened Sequences
  import opened Countries
  import opened Predicates
  import opened Generator
  import opened Display

  /** The value paramReducer is left at: the last filter applied, if any. */
  function LastOf(searchers: seq<string>): (r: Option<string>)
    ensures r.None? <==> searchers == []
    ensures r.Some? ==> r.value in searchers
  {
    if searchers == [] then None else Some(searchers[|searchers| - 1])
  }

  class Quiz {
    const data: Dataset
    var challenge: Option<string>
    var answers: seq<string>
    var correctAnswer: Option<bool>
    var numberOfAnswers: nat
    var correctAnswerCount: nat
    var notHadFirstGuess: bool
    var paramReducer: Option<string>
    var searcherArray: seq<string>

    /** What every method keeps: the remaining answers are distinct dataset
        names, at most eight of them, and the recorded filters are at most two
        narrowing attributes. */
    ghost predicate Valid()
      reads this
    {
      && data.WellFormed()
      && |answers| <= MaxAnswers
      && NoDuplicates(answers)
      && (forall a :: a in answers ==> a in data.names)
      && |searcherArray| <= 2
      && (forall k :: k in searcherArray ==> k in ParamReducers)
    }

    /** Each correct guess moves one answer from the remaining list to the
        counter, so the two add up to the number of answers announced. */
    predicate Consistent()
      reads this
    {
      correctAnswerCount + |answers| == numberOfAnswers
    }

    /** The filters an abandoned pass leaves behind: the first filter pushed
        (src/App.tsx:225) and paramReducer cleared (src/App.tsx:234). */
    predicate AbandonedFilters(d: Draw)
      requires d.InRange()
      reads this
    {
      searcherArray == [ParamReducers[d.reducer1]] && paramReducer == None
    }

    /** The initial values of the state hooks and module variables. */
    constructor (data: Dataset)
      requires data.WellFormed()
      ensures Valid() && Consistent()
      ensures this.data == data
      ensures challenge == None && answers == [] && correctAnswer == None
      ensures numberOfAnswers == 0 && correctAnswerCount == 0 && notHadFirstGuess
      ensures paramReducer == None && searcherArray == []
    {
      this.data := data;
      challenge := None;
      answers := [];
      correctAnswer := None;
      numberOfAnswers := 0;
      correctAnswerCount := 0;
      notHadFirstGuess := true;
      paramReducer := None;
      searcherArray := [];
    }

    /** The do…while loop, one draw per pass. The result is the one RunLoop
        gives for the supplied draws: an accepted pass sets the challenge, the
        answers and the filters; giving up (or running out of draws) leaves the
        challenge and answers as they were, with numberOfAnswers at the size of
        the last counted pass. */
    method GenerateChallenge(draws: seq<Draw>)
      requires Valid() && AllInRange(draws)
      modifies this
      ensures Valid()
      ensures notHadFirstGuess && correctAnswerCount == 0 && correctAnswer == old(correctAnswer)
      ensures var g := RunLoop(data, draws, old(numberOfAnswers));
        if g.Accepted? then
          && g.pass < |draws| && draws[g.pass].InRange()
          && challenge == Some(Render(draws[g.pass], |g.answers|))
          && answers == g.answers && numberOfAnswers == |g.answers|
          && searcherArray == g.searchers && paramReducer == LastOf(g.searchers)
          && Consistent()
        else
          && challenge == old(challenge) && answers == old(answers)
          && numberOfAnswers == g.shown
          && searcherArray == [] && paramReducer == None
    {
      notHadFirstGuess := true;
      paramReducer := None;
      correctAnswerCount := 0;
      Retry(draws, Passes(data, draws));
    }

    /** The do…while loop itself (src/App.tsx:200-266), one draw per pass,
        given the outcome of every pass. It changes only what the loop body
        assigns. */
    method Retry(draws: seq<Draw>, ghost passes: seq<Attempt>)
      requires Valid() && AllInRange(draws) && passes == Passes(data, draws)
      modifies this`searcherArray, this`paramReducer, this`challenge, this`answers, this`numberOfAnswers
      ensures Valid()
      ensures var g := Loop(passes, 0, 0, old(numberOfAnswers));
        if g.Accepted? then
          && g.pass < |draws| && draws[g.pass].InRange()
          && challenge == Some(Render(draws[g.pass], |g.answers|))
          && answers == g.answers && numberOfAnswers == |g.answers|
          && searcherArray == g.searchers && paramReducer == LastOf(g.searchers)
        else
          && challenge == old(challenge) && answers == old(answers)
          && numberOfAnswers == g.shown
          && searcherArray == [] && paramReducer == None
    {
      ghost var g := Loop(passes, 0, 0, numberOfAnswers);
      var matching: seq<string> := [];
      var attempt: nat := 0;
      var i := 0;
      while true
        invariant 0 <= i <= |draws|
        invariant Valid()
        invariant Loop(passes, i, attempt, numberOfAnswers) == g
        invariant challenge == old(challenge) && answers == old(answers)
        decreases |draws| - i
      {
        searcherArray := [];
        paramReducer := None;
        if attempt >= MaxAttempts {
          return;
        }
        if i == |draws| {
          // Not in the source: the supplied draws are exhausted.
          return;
        }
        var valid, abandoned;
        valid, matching, abandoned := RunPass(draws[i], draws, i);
        i := i + 1;
        if abandoned {
          continue;
        }
        numberOfAnswers := |matching|;
        attempt := attempt + 1;
        if valid {
          return;
        }
      }
    }

    /** One pass after the resets (src/App.tsx:208-263). `abandoned` is the
        `continue` taken when the first filter leaves fewer than two; `valid`
        says the challenge and the answers were set. The pass is the `i`-th of
        `draws`. */
    method RunPass(d: Draw, ghost draws: seq<Draw>, ghost i: nat)
      returns (valid: bool, matching: seq<string>, abandoned: bool)
      requires Valid() && AllInRange(draws) && i < |draws| && draws[i] == d
      requires searcherArray == [] && paramReducer == None
      modifies this`searcherArray, this`paramReducer, this`challenge, this`answers
      ensures Valid()
      ensures var a := Passes(data, draws)[i];
        && (abandoned <==> a.Abandoned?)
        && (!abandoned ==> a == Counted(matching, searcherArray) && paramReducer == LastOf(searcherArray))
        && (valid <==> !abandoned && MinAnswers <= |matching| <= MaxAnswers)
      ensures abandoned ==> AbandonedFilters(d)
      ensures valid ==> challenge == Some(Render(d, |matching|)) && answers == matching
      ensures !valid ==> challenge == old(challenge) && answers == old(answers)
    {
      PassesIndex(data, draws, i);
      var replacement;
      matching, replacement, abandoned := DrawAndNarrow(d);
      valid := !abandoned && MinAnswers <= |matching| <= MaxAnswers;
      if valid {
        CountedNamesFromDataset(data, d);
        challenge := Some(Describe(Challenges[d.challengeIndex].Description(), |matching|, replacement));
        answers := matching;
      }
    }

    /** Draw a challenge, run checkChallenge, and narrow an oversized answer
        set, recording each filter in searcherArray and paramReducer
        (src/App.tsx:208-248). */
    method DrawAndNarrow(d: Draw) returns (matching: seq<string>, replacement: Replacement, abandoned: bool)
      requires d.InRange() && Valid()
      requires searcherArray == [] && paramReducer == None
      modifies this`searcherArray, this`paramReducer
      ensures Valid()
      ensures replacement == ReplacementFor(KindOf(d), d.pick)
      ensures var a := AttemptOf(data, d);
        && (abandoned <==> a.Abandoned?)
        && (!abandoned ==> a == Counted(matching, searcherArray) && paramReducer == LastOf(searcherArray))
      ensures abandoned ==> AbandonedFilters(d)
    {
      abandoned := false;
      var randomChallenge := Challenges[d.challengeIndex];
      var primary;
      primary, replacement := CheckChallenge(randomChallenge.kind, d.pick, data);
      matching := primary;
      if |matching| > MaxAnswers {
        var searcher := ParamReducers[d.reducer1];
        paramReducer := Some(searcher);
        searcherArray := searcherArray + [searcher];
        matching := Narrow(data, matching, searcher);
        if |matching| < MinAnswers {
          paramReducer := None;
          abandoned := true;
          return;
        }
        if |matching| > MaxAnswers {
          var searcher2 := ParamReducers[d.reducer2];
          paramReducer := Some(searcher2);
          searcherArray := searcherArray + [searcher2];
          matching := Narrow(data, matching, searcher2);
        }
      }
      AttemptSteps(data, d);
    }

    /** A guess: exact, case-sensitive membership in the remaining answers. A
        hit removes the guess and counts it; a miss marks the guess incorrect
        and changes nothing else. */
    method HandleSubmit(input: string)
      requires Valid()
      modifies this
      ensures Valid()
      ensures !notHadFirstGuess
      ensures old(input in answers) ==>
        && correctAnswer == Some(true)
        && correctAnswerCount == old(correctAnswerCount) + 1
        && answers == Without(old(answers), input)
        && input !in answers
        && |answers| == old(|answers|) - 1
      ensures old(input !in answers) ==>
        && correctAnswer == Some(false)
        && correctAnswerCount == old(correctAnswerCount)
        && answers == old(answers)
      ensures challenge == old(challenge) && numberOfAnswers == old(numberOfAnswers)
      ensures searcherArray == old(searcherArray) && paramReducer == old(paramReducer)
      ensures old(Consistent()) ==> Consistent()
    {
      notHadFirstGuess := false;
      if input in answers {
        correctAnswer := Some(true);
        correctAnswerCount := correctAnswerCount + 1;
        var updatedAnswers := Without(answers, input);
        WithoutLength(answers, input);
        WithoutIsSubsequence(answers, input);
        SubsequenceNoDuplicates(updatedAnswers, answers);
        WithoutMembers(answers, input, input);
        forall a | a in updatedAnswers ensures a in data.names {
          WithoutMembers(answers, input, a);
        }
        answers := updatedAnswers;
      } else {
        correctAnswer := Some(false);
      }
    }

    /** The heading shown under the button: nothing before a challenge is set,
        otherwise the description with the clauses of searcherArray. */
    method Heading() returns (shown: Option<string>)
      ensures shown == if challenge.Some? then Some(HeadingText(challenge.value, Clauses(searcherArray))) else None
    {
      var addedText := AddedText(searcherArray);
      if challenge.None? {
        return None;
      }
      var text := challenge.value;
      if |addedText| > 0 {
        shown := Some(DropLast(text) + " and " + Join(addedText, " and "));
      } else {
        shown := Some(text);
      }
    }
  }
}
