/** The text a `ProjectItem` card shows for its people count
    (src/index.ts:144-150). */
module ProjectItem {

  import opened Options
  import opened Text

  const PersonsSuffix := " persons"

  /** The `people` getter: "1 person" for exactly one person, otherwise the
      number followed by " persons"; the number shown reads back as the
      project's count. */
  function PeopleLabel(people: int): (text: string)
    ensures people == 1 <==> text == "1 person"
    ensures people != 1 ==>
      && |text| > |PersonsSuffix|
      && text[|text| - |PersonsSuffix|..] == PersonsSuffix
      && CanonicalDecimal(text[..|text| - |PersonsSuffix|])
      && ParseInt(text[..|text| - |PersonsSuffix|]) == Some(people)
  {
    if people == 1 then "1 person"
    else
      var digits := IntToString(people);
      var text := digits + PersonsSuffix;
      assert text[..|text| - |PersonsSuffix|] == digits;
      IntToStringRoundTrip(people);
      text
  }

  /** The label is the only text of its form for the count: any string made
      of a canonical decimal that reads back as `people`, followed by
      " persons", is the label itself. */
  lemma PeopleLabelUnique(people: int, text: string)
    requires people != 1
    requires |text| > |PersonsSuffix| && text[|text| - |PersonsSuffix|..] == PersonsSuffix
    requires CanonicalDecimal(text[..|text| - |PersonsSuffix|])
    requires ParseInt(text[..|text| - |PersonsSuffix|]) == Some(people)
    ensures text == PeopleLabel(people)
  {
    var prefix := text[..|text| - |PersonsSuffix|];
    CanonicalDecimalUnique(prefix, people);
    assert text == prefix + PersonsSuffix;
  }
}
