/** The suffix added to the shown challenge (src/App.tsx:269-296, 331-333):
    each applied filter in searcherArray maps to a clause, and the clauses are
    joined onto the description in place of its final character. */
module Display {
  import opened Text
  import opened Predicates
  import opened Generator

  /** What the forEach callback pushes for one searcher: eight independent
      tests, in the source's order. The Islamic Cooperation filter pushes the
      Non-Aligned Movement text, and the Non-Aligned filter pushes nothing. */
  function ClauseOf(searcher: string): seq<string>
  {
    (if searcher == "isLandlocked" then ["are Landlocked"] else [])
    + (if searcher == "isIccMember" then ["are members of the International Criminal Court"] else [])
    + (if searcher == "isCommonwealthMember" then ["are members of The Commonwealth"] else [])
    + (if searcher == "isEuMember" then ["are members of The European Union"] else [])
    + (if searcher == "isIslamicCooperationMember" then ["are members of The Non-Aligned Movement"] else [])
    + (if searcher == "isAfricanUnionMember" then ["are members of The African Union"] else [])
    + (if searcher == "isNatoMember" then ["are members of The North Atlantic Treaty Organization"] else [])
    + (if searcher == " and " then [" and "] else [])
  }

  /** The contents of `addedText` for a given searcherArray. */
  function Clauses(searchers: seq<string>): seq<string>
    decreases |searchers|
  {
    if searchers == [] then []
    else Clauses(searchers[..|searchers| - 1]) + ClauseOf(searchers[|searchers| - 1])
  }

  /** The forEach over searcherArray that fills addedText. */
  method AddedText(searchers: seq<string>) returns (added: seq<string>)
    ensures added == Clauses(searchers)
  {
    added := [];
    for k := 0 to |searchers|
      invariant added == Clauses(searchers[..k])
    {
      assert searchers[..k + 1][..k] == searchers[..k];
      added := added + ClauseOf(searchers[k]);
    }
    assert searchers[..|searchers|] == searchers;
  }

  /** The heading shown for a challenge, given addedText. */
  function HeadingText(challenge: string, added: seq<string>): string
  {
    if |added| > 0 then DropLast(challenge) + " and " + Join(added, " and ") else challenge
  }

  /** Each narrowing attribute yields one clause, except isNonAlignedMember,
      which yields none; isIslamicCooperationMember yields the Non-Aligned text. */
  lemma ReducerClauses(r: string)
    requires r in ParamReducers
    ensures r == "isNonAlignedMember" <==> ClauseOf(r) == []
    ensures r != "isNonAlignedMember" ==> |ClauseOf(r)| == 1
    ensures r == "isIslamicCooperationMember" ==> ClauseOf(r) == ["are members of The Non-Aligned Movement"]
    ensures r == "isEuMember" ==> ClauseOf(r) == ["are members of The European Union"]
  {
    var j :| 0 <= j < |ParamReducers| && ParamReducers[j] == r;
    if j == 0 {
      assert r == "isCommonwealthMember";
    } else if j == 1 {
      assert r == "isLandlocked";
    } else if j == 2 {
      assert r == "isEuMember";
    } else if j == 3 {
      assert r == "isNatoMember";
    } else if j == 4 {
      assert r == "isAfricanUnionMember";
    } else if j == 5 {
      assert r == "isIslamicCooperationMember";
    } else if j == 6 {
      assert r == "isIccMember";
    } else {
      assert r == "isNonAlignedMember";
    }
  }

  /** One more searcher adds one clause, or none for isNonAlignedMember. */
  lemma ClausesStep(s: seq<string>, r: string)
    requires r in ParamReducers
    ensures |Clauses(s + [r])| == |Clauses(s)| + (if r == "isNonAlignedMember" then 0 else 1)
  {
    ClausesAppend(s, r);
    ReducerClauses(r);
  }

  lemma {:induction false} ClausesAppend(s: seq<string>, r: string)
    ensures Clauses(s + [r]) == Clauses(s) + ClauseOf(r)
  {
    assert (s + [r])[..|s + [r]| - 1] == s;
  }

  /** Over narrowing attributes, there is one clause per searcher that is not
      isNonAlignedMember. */
  lemma {:induction false} ClausesCount(s: seq<string>)
    requires forall k :: k in s ==> k in ParamReducers
    ensures |Clauses(s)| + multiset(s)["isNonAlignedMember"] == |s|
    decreases |s|
  {
    if s != [] {
      var s' := s[..|s| - 1];
      var last := s[|s| - 1];
      assert s == s' + [last];
      assert forall k :: k in s' ==> k in ParamReducers by {
        forall k | k in s' ensures k in ParamReducers { assert k in s; }
      }
      ClausesCount(s');
      ClausesStep(s', last);
      assert multiset(s) == multiset(s') + multiset{last};
    }
  }

  /** Without clauses the description is shown as it is. */
  lemma HeadingWithoutClauses(challenge: string, s: seq<string>)
    requires Clauses(s) == []
    ensures HeadingText(challenge, Clauses(s)) == challenge
  {
  }

  /** Appending one clause to addedText appends " and " and the clause to
      the heading; the first clause also takes the place of the
      description's final character. */
  lemma HeadingSnoc(challenge: string, added: seq<string>, c: string)
    ensures var before := if added == [] then DropLast(challenge) else HeadingText(challenge, added);
      HeadingText(challenge, added + [c]) == before + " and " + c
  {
    if added != [] {
      JoinSnoc(added, c, " and ");
    }
  }

  /** Each further filter with a clause appends " and " and its clause. */
  lemma HeadingAppendsClause(challenge: string, s: seq<string>, r: string)
    requires r in ParamReducers && r != "isNonAlignedMember"
    ensures |ClauseOf(r)| == 1
    ensures var before := if Clauses(s) == [] then DropLast(challenge) else HeadingText(challenge, Clauses(s));
      HeadingText(challenge, Clauses(s + [r])) == before + " and " + ClauseOf(r)[0]
  {
    ClausesAppend(s, r);
    ReducerClauses(r);
    var c := ClauseOf(r)[0];
    assert ClauseOf(r) == [c];
    HeadingSnoc(challenge, Clauses(s), c);
  }

  /** The description of every challenge ends with the template's period. */
  lemma RenderEndsWithPeriod(d: Draw, count: nat)
    requires d.InRange()
    ensures var desc := Render(d, count); |desc| > 0 && desc[|desc| - 1] == '.'
  {
    var kind := KindOf(d);
    assert Challenges[d.challengeIndex].Description() == Template(kind);
    var r := ReplacementFor(kind, d.pick);
    DescribeFillsPlaceholders(kind, count, r);
    TemplateShape(kind);
    var tail := Wording(kind).1;
    var desc := Decimal(count) + Wording(kind).0 + Shown(r) + tail;
    assert desc[|desc| - 1] == tail[|tail| - 1];
  }

  /** A nonempty suffix replaces exactly that period. */
  lemma HeadingReplacesPeriod(d: Draw, count: nat, added: seq<string>)
    requires d.InRange() && |added| > 0
    ensures var desc := Render(d, count);
      |desc| > 0 && desc[|desc| - 1] == '.'
      && HeadingText(desc, added) == desc[..|desc| - 1] + " and " + Join(added, " and ")
  {
    RenderEndsWithPeriod(d, count);
  }
}
