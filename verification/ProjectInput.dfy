/** The submit path of the `ProjectInput` form (src/index.ts:250-295): the
    three field checks and the store update they gate. Reading the input
    elements, `alert` and clearing the inputs are left out; the entered
    values arrive as parameters, the people count already as an integer. */
module ProjectInput {

  import opened Options
  import opened Text
  import opened Validation
  import opened ProjectState

  /** The title must not be blank. */
  const TitleRules := NoConstraints.(required := true)

  /** The description must not be blank and its trimmed length must exceed 5. */
  const DescriptionRules := NoConstraints.(required := true, minLength := Some(5))

  /** The people count must lie strictly between 1 and 5. */
  const PeopleRules := NoConstraints.(required := true, min := Some(1), max := Some(5))

  /** The tuple `[title, description, people]` `gatherUserInput` returns. */
  datatype UserInput = UserInput(title: string, description: string, people: int)

  /** What the three checks accept, in the form's own terms. */
  predicate AcceptableInput(title: string, description: string, people: int) {
    !AllWhitespace(title) && Utf16Length(Trim(description)) >= 6 && 1 < people < 5
  }

  /** `gatherUserInput`: the entered values, untrimmed, when all three
      checks pass, and nothing otherwise. In the form's own terms: the title
      has a non-whitespace character, the trimmed description is at least
      six UTF-16 code units long, and the people count is 2, 3 or 4. */
  function GatherUserInput(title: string, description: string, people: int): (r: Option<UserInput>)
    ensures r.Some? <==> AcceptableInput(title, description, people)
    ensures r.Some? ==> r.value == UserInput(title, description, people)
  {
    TitleCheck(title);
    DescriptionCheck(description);
    PeopleCheck(people);
    if !Validate(Str(title), TitleRules)
      || !Validate(Str(description), DescriptionRules)
      || !Validate(Num(people), PeopleRules)
    then None
    else Some(UserInput(title, description, people))
  }

  /** The title check in the form's terms. */
  lemma TitleCheck(title: string)
    ensures Validate(Str(title), TitleRules) <==> !AllWhitespace(title)
  {
  }

  /** The description check in the form's terms: since the trimmed length
      in UTF-16 code units must exceed 5, `required` adds nothing. */
  lemma DescriptionCheck(description: string)
    ensures Validate(Str(description), DescriptionRules) <==> Utf16Length(Trim(description)) >= 6
  {
  }

  /** The people check in the form's terms: `required` never rejects a
      number, so only the strict bounds 1 < people < 5 decide. */
  lemma PeopleCheck(people: int)
    ensures Validate(Num(people), PeopleRules) <==> 1 < people < 5
  {
    RequiredAcceptsEveryNumber(people, PeopleRules);
  }

  /** `submitHandler`: a project is added exactly when the input is valid.
      Valid input appends one Active project carrying the entered values and
      notifies; invalid input leaves the store, and its notification log,
      exactly as it was. */
  function SubmitHandler(s: State, id: string, title: string, description: string, people: int): (r: State)
    ensures WellFormed(s) ==> WellFormed(r)
    ensures r.listenerCount == s.listenerCount
    ensures AcceptableInput(title, description, people) ==>
      && |r.projects| == |s.projects| + 1
      && r.projects[..|s.projects|] == s.projects
      && r.projects[|s.projects|] == Project(id, title, description, people, Active)
      && |r.log| == |s.log| + s.listenerCount
      && r.log == s.log + Round(s.listenerCount, r.projects)
      && forall l: ListenerId ::
           Received(r.log, l) == Received(s.log, l) + (if Registered(s, l) then [r.projects] else [])
    ensures !AcceptableInput(title, description, people) ==> r == s
  {
    match GatherUserInput(title, description, people)
    case None => s
    case Some(input) => AddProject(s, id, input.title, input.description, input.people)
  }

  /** The boundary cases of the people count: 1 and 5 are rejected, because
      both bounds are strict, and 3 is accepted. */
  lemma PeopleBoundaries()
    ensures !Validate(Num(1), PeopleRules)
    ensures !Validate(Num(5), PeopleRules)
    ensures Validate(Num(3), PeopleRules)
    ensures Validate(Num(2), PeopleRules) && Validate(Num(4), PeopleRules)
  {
    PeopleCheck(1);
    PeopleCheck(2);
    PeopleCheck(3);
    PeopleCheck(4);
    PeopleCheck(5);
  }

  /** A description of five non-blank characters is one too short. */
  lemma DescriptionNeedsSixCharacters()
    ensures !Validate(Str("abcde"), DescriptionRules)
    ensures Validate(Str("abcdef"), DescriptionRules)
  {
    var five, six := "abcde", "abcdef";
    assert !IsWhitespace('a') && !IsWhitespace('e') && !IsWhitespace('f');
    assert five[0] == 'a' && five[4] == 'e' && six[0] == 'a' && six[5] == 'f';
    assert forall k :: 0 <= k < |five| ==> InBasicPlane(five[k]);
    TrimKeepsInnerString(five);
    TrimKeepsInnerString(six);
    DescriptionCheck(five);
    DescriptionCheck(six);
  }

  /** A run of `n` grinning-face emoji, a character outside the Basic
      Multilingual Plane. */
  function Grins(n: nat): (s: string)
    ensures |s| == n
    ensures forall k :: 0 <= k < n ==> s[k] == '\U{1F600}'
  {
    if n == 0 then [] else Grins(n - 1) + ['\U{1F600}']
  }

  /** Lengths are UTF-16 code units: `n` emoji take `2 * n` units, so three
      of them pass the description check while two do not. */
  lemma AstralCharactersCountTwice(n: nat)
    ensures Validate(Str(Grins(n)), DescriptionRules) <==> n >= 3
  {
    var s := Grins(n);
    assert !IsWhitespace('\U{1F600}');
    assert !InBasicPlane('\U{1F600}');
    TrimKeepsInnerString(s);
    AstralLength(s);
    DescriptionCheck(s);
  }

  /** Mixed strings count each character by its own code units: a letter
      followed by `n` emoji is `1 + 2 * n` units long, so it passes exactly
      when `n >= 3` ("a" and two emoji make five units and are rejected). */
  lemma MixedDescriptionLength(n: nat)
    ensures Validate(Str(['a'] + Grins(n)), DescriptionRules) <==> n >= 3
  {
    var s := ['a'] + Grins(n);
    MixedTrim(n);
    MixedUnits(n);
    DescriptionCheck(s);
  }

  /** A letter followed by emoji has no whitespace to trim. */
  lemma MixedTrim(n: nat)
    ensures Trim(['a'] + Grins(n)) == ['a'] + Grins(n)
  {
    var s := ['a'] + Grins(n);
    assert !IsWhitespace('a') && !IsWhitespace('\U{1F600}');
    assert s[0] == 'a';
    assert n > 0 ==> s[|s| - 1] == Grins(n)[n - 1];
    TrimKeepsInnerString(s);
  }

  /** A letter followed by `n` emoji is `1 + 2 * n` code units long. */
  lemma MixedUnits(n: nat)
    ensures Utf16Length(['a'] + Grins(n)) == 1 + 2 * n
  {
    assert !InBasicPlane('\U{1F600}');
    Utf16LengthAppend(['a'], Grins(n));
    Utf16LengthOfChar('a');
    AstralLength(Grins(n));
  }

  /** Whitespace-only titles are refused. */
  lemma BlankTitleRejected()
    ensures GatherUserInput("", "a description", 3).None?
    ensures GatherUserInput("   ", "a description", 3).None?
  {
    assert AllWhitespace("   ");
  }
}
