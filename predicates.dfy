/** The challenge catalogue and checkChallenge (src/App.tsx:36-157): each
    challenge type draws a parameter and collects, in dataset order, the
    country names that pass the matching name test. */
module Predicates {
  import opened Text
  import opened Sequences
  import opened Countries

  datatype ChallengeType =
    | ExactLength
    | ContainVowel
    | SingleOccurrenceVowel
    | EndingLetter
    | BeginningLetter
    | MembersOf

  /** A challenge: its type and its description template, where the first "X"
      stands for the number of answers and the first "*" for the parameter.
      Each type has one template, so the template is computed from the type. */
  datatype Challenge = Challenge(kind: ChallengeType)
  {
    function Description(): string
    {
      Template(kind)
    }
  }

  /** The wording of each template around its two placeholders: the text
      between "X" and "*", and the text after "*". */
  function Wording(kind: ChallengeType): (string, string)
  {
    match kind
    case ExactLength => (" countries contain exactly ", " letters.")
    case ContainVowel => (" countries contain the vowel '", "'.")
    // The source's single literal, split in two to keep its proofs small.
    case SingleOccurrenceVowel => (" countries contain only one" + " occurrence of the vowel '", "'.")
    case EndingLetter => (" countries end with the letter '", "'.")
    case BeginningLetter => (" countries begin with the letter '", "'.")
    case MembersOf => (" countries that are members of '", "'.")
  }

  /** The template text, e.g. "X countries contain exactly * letters.". */
  function Template(kind: ChallengeType): string
  {
    "X" + Wording(kind).0 + "*" + Wording(kind).1
  }

  const Challenges: seq<Challenge> := [
    Challenge(ExactLength),
    Challenge(ContainVowel),
    Challenge(SingleOccurrenceVowel),
    Challenge(EndingLetter),
    Challenge(BeginningLetter),
    Challenge(MembersOf)
  ]

  const Vowels: seq<char> := ['a', 'e', 'i', 'o', 'u']

  /** What the random helpers return during one call of checkChallenge:
      getRandomInt(3, 10), an index into the vowel list, and the character
      code handed to String.fromCharCode by getRandomLetter. */
  datatype Pick = Pick(length: int, vowelIndex: int, letterCode: int)
  {
    predicate InRange()
    {
      3 <= length <= 10 && 0 <= vowelIndex < |Vowels| && 65 <= letterCode <= 90
    }
  }

  /** `String.fromCharCode(code).toLowerCase()` for a code in [65, 90]. */
  function Letter(code: int): (c: char)
    requires 65 <= code <= 90
    ensures IsLower(c) && c as int == code + 32
  {
    LowerChar(code as char)
  }

  /** The replacement value: a number, a string, or null. */
  datatype Replacement = Num(n: nat) | Str(s: string) | NullValue

  /** `String(value).toUpperCase()`. */
  function Shown(r: Replacement): string
  {
    match r
    case Num(n) => Decimal(n)
    case Str(s) => Upper(s)
    case NullValue => "NULL"
  }

  /** The name test a challenge type applies with the drawn parameter. */
  function CriterionFor(kind: ChallengeType, p: Pick): Criterion
    requires kind != MembersOf && p.InRange()
  {
    match kind
    case ExactLength => LengthIs(p.length)
    case ContainVowel => ContainsVowel(Vowels[p.vowelIndex])
    case SingleOccurrenceVowel => SingleVowel(Vowels[p.vowelIndex])
    case EndingLetter => EndsWithLetter(Letter(p.letterCode))
    case BeginningLetter => BeginsWithLetter(Letter(p.letterCode))
  }

  function ReplacementFor(kind: ChallengeType, p: Pick): Replacement
    requires p.InRange()
  {
    match kind
    case ExactLength => Num(p.length)
    case ContainVowel => Str([Vowels[p.vowelIndex]])
    case SingleOccurrenceVowel => Str([Vowels[p.vowelIndex]])
    case EndingLetter => Str([Letter(p.letterCode)])
    case BeginningLetter => Str([Letter(p.letterCode)])
    case MembersOf => NullValue
  }

  /** The answers checkChallenge returns; membersOf falls to the default branch. */
  function Candidates(data: Dataset, kind: ChallengeType, p: Pick): seq<string>
    requires p.InRange()
  {
    if kind == MembersOf then [] else Select(data, data.names, CriterionFor(kind, p))
  }

  /** One `for (const country in countriesData)` loop pushing the names that pass `c`. */
  method Collect(data: Dataset, c: Criterion) returns (answers: seq<string>)
    ensures answers == Select(data, data.names, c)
  {
    answers := [];
    for k := 0 to |data.names|
      invariant answers == Select(data, data.names[..k], c)
    {
      var country := data.names[k];
      assert data.names[..k + 1][..k] == data.names[..k];
      if Holds(data, c, country) {
        answers := answers + [country];
      }
    }
    assert data.names[..|data.names|] == data.names;
  }

  method CheckChallenge(kind: ChallengeType, p: Pick, data: Dataset)
    returns (answers: seq<string>, replacement: Replacement)
    requires p.InRange()
    ensures answers == Candidates(data, kind, p)
    ensures replacement == ReplacementFor(kind, p)
  {
    match kind {
      case ExactLength =>
        replacement := Num(p.length);
        answers := Collect(data, LengthIs(p.length));
      case ContainVowel =>
        var v := Vowels[p.vowelIndex];
        replacement := Str([v]);
        answers := Collect(data, ContainsVowel(v));
      case SingleOccurrenceVowel =>
        var v := Vowels[p.vowelIndex];
        replacement := Str([v]);
        answers := Collect(data, SingleVowel(v));
      case EndingLetter =>
        var l := Letter(p.letterCode);
        replacement := Str([l]);
        answers := Collect(data, EndsWithLetter(l));
      case BeginningLetter =>
        var l := Letter(p.letterCode);
        replacement := Str([l]);
        answers := Collect(data, BeginsWithLetter(l));
      case MembersOf =>
        return [], NullValue;
    }
  }

  /** Every answer set is drawn from the dataset, in dataset order, without repeats. */
  lemma CandidatesFromDataset(data: Dataset, kind: ChallengeType, p: Pick)
    requires data.WellFormed() && p.InRange()
    ensures IsSubsequence(Candidates(data, kind, p), data.names)
    ensures NoDuplicates(Candidates(data, kind, p))
  {
    if kind != MembersOf {
      SelectIsSubsequence(data, data.names, CriterionFor(kind, p));
      SubsequenceNoDuplicates(Candidates(data, kind, p), data.names);
    }
  }

  /** membersOf has no case of its own: the default branch gives no answers
      and a null parameter. */
  lemma MembersOfAnswers(data: Dataset, p: Pick)
    requires p.InRange()
    ensures Candidates(data, MembersOf, p) == [] && ReplacementFor(MembersOf, p) == NullValue
  {
  }

  /** exactLength: the length lies in [3, 10] and the answers are exactly the
      names of that length. */
  lemma ExactLengthAnswers(data: Dataset, p: Pick, name: string)
    requires p.InRange()
    ensures ReplacementFor(ExactLength, p) == Num(p.length) && 3 <= p.length <= 10
    ensures name in Candidates(data, ExactLength, p) <==> name in data.names && |name| == p.length
  {
    SelectMembers(data, data.names, LengthIs(p.length), name);
  }

  /** containVowel: the vowel is one of a, e, i, o, u and the answers are the
      names whose lower-cased form contains it. */
  lemma ContainVowelAnswers(data: Dataset, p: Pick, name: string)
    requires p.InRange()
    ensures var v := Vowels[p.vowelIndex];
      v in "aeiou" && ReplacementFor(ContainVowel, p) == Str([v]) &&
      (name in Candidates(data, ContainVowel, p) <==> name in data.names && v in Lower(name))
  {
    SelectMembers(data, data.names, ContainsVowel(Vowels[p.vowelIndex]), name);
  }

  /** singleOccurrenceVowel: the answers are the names whose lower-cased form
      contains the vowel exactly once. */
  lemma SingleOccurrenceVowelAnswers(data: Dataset, p: Pick, name: string)
    requires p.InRange()
    ensures var v := Vowels[p.vowelIndex];
      v in "aeiou" && ReplacementFor(SingleOccurrenceVowel, p) == Str([v]) &&
      (name in Candidates(data, SingleOccurrenceVowel, p) <==> name in data.names && Count(Lower(name), v) == 1)
  {
    var v := Vowels[p.vowelIndex];
    SelectMembers(data, data.names, SingleVowel(v), name);
    SingleOccurrenceIffCountOne(Lower(name), v);
  }

  /** "Canada" holds three a's, so it never answers the single-'a' challenge. */
  lemma CanadaIsNoSingleA(data: Dataset, p: Pick)
    requires p.InRange() && p.vowelIndex == 0
    ensures "Canada" !in Candidates(data, SingleOccurrenceVowel, p)
  {
    SingleOccurrenceVowelAnswers(data, p, "Canada");
    CanadaLetters();
  }

  lemma CanadaLetters()
    ensures Count(Lower("Canada"), 'a') == 3
  {
    assert Lower("Canada") == "canada";
    assert "canada"[1..] == "anada" && "anada"[1..] == "nada" && "nada"[1..] == "ada";
    assert "ada"[1..] == "da" && "da"[1..] == "a" && "a"[1..] == "";
    assert Count("a", 'a') == 1;
    assert Count("da", 'a') == 1;
    assert Count("ada", 'a') == 2;
    assert Count("nada", 'a') == 2;
    assert Count("anada", 'a') == 3;
  }

  /** "Japan" holds two a's, so it does not answer it either. */
  lemma JapanIsNoSingleA(data: Dataset, p: Pick)
    requires p.InRange() && p.vowelIndex == 0
    ensures "Japan" !in Candidates(data, SingleOccurrenceVowel, p)
  {
    SingleOccurrenceVowelAnswers(data, p, "Japan");
    JapanLetters();
  }

  lemma JapanLetters()
    ensures Count(Lower("Japan"), 'a') == 2
  {
    assert Lower("Japan") == "japan";
    assert "japan"[1..] == "apan" && "apan"[1..] == "pan" && "pan"[1..] == "an";
    assert "an"[1..] == "n" && "n"[1..] == "";
    assert Count("n", 'a') == 0;
    assert Count("an", 'a') == 1;
    assert Count("pan", 'a') == 1;
    assert Count("apan", 'a') == 2;
  }

  /** "Chad" holds one 'a', so it answers that challenge whenever it is in the dataset. */
  lemma ChadIsSingleA(data: Dataset, p: Pick)
    requires p.InRange() && p.vowelIndex == 0 && "Chad" in data.names
    ensures "Chad" in Candidates(data, SingleOccurrenceVowel, p)
  {
    SingleOccurrenceVowelAnswers(data, p, "Chad");
    ChadLetters();
  }

  lemma ChadLetters()
    ensures Count(Lower("Chad"), 'a') == 1
  {
    assert Lower("Chad") == "chad";
    assert "chad"[1..] == "had" && "had"[1..] == "ad" && "ad"[1..] == "d" && "d"[1..] == "";
    assert Count("d", 'a') == 0;
    assert Count("ad", 'a') == 1;
  }

  /** endingLetter: the letter is in a-z and the answers are the names whose
      lower-cased form ends with it. */
  lemma EndingLetterAnswers(data: Dataset, p: Pick, name: string)
    requires p.InRange()
    ensures var l := Letter(p.letterCode);
      IsLower(l) && ReplacementFor(EndingLetter, p) == Str([l]) &&
      (name in Candidates(data, EndingLetter, p) <==>
         name in data.names && |name| > 0 && Lower(name)[|name| - 1] == l)
  {
    var l := Letter(p.letterCode);
    SelectMembers(data, data.names, EndsWithLetter(l), name);
    if |name| > 0 {
      assert Lower(name)[|name| - 1..] == [Lower(name)[|name| - 1]];
    }
  }

  /** beginningLetter: the letter is in a-z and the answers are the names
      whose lower-cased form starts with it. */
  lemma BeginningLetterAnswers(data: Dataset, p: Pick, name: string)
    requires p.InRange()
    ensures var l := Letter(p.letterCode);
      IsLower(l) && ReplacementFor(BeginningLetter, p) == Str([l]) &&
      (name in Candidates(data, BeginningLetter, p) <==>
         name in data.names && |name| > 0 && Lower(name)[0] == l)
  {
    var l := Letter(p.letterCode);
    SelectMembers(data, data.names, BeginsWithLetter(l), name);
    if |name| > 0 {
      assert Lower(name)[..1] == [Lower(name)[0]];
    }
  }
}
