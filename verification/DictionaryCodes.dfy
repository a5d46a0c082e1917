/** Every value of the dictionary is encoded, by its own code. */
module DictionaryCodes {
  import opened Wrappers
  import opened Dictionary

  predicate StatusIsCoded(code: char) {
    var value := StatusOf(code);
    value.Some? && StatusCode(value.value) == Some(code) && !IsInherited(value.value)
  }

  predicate ContentTypeIsCoded(code: char) {
    var value := ContentTypeOf(code);
    value.Some? && ContentTypeCode(value.value) == Some(code)
  }

  predicate IsOnlyContentType(code: char) {
    var value := ContentTypeOf(code);
    value.Some? && StatusCode(value.value).None? && !IsInherited(value.value)
  }

  lemma Status1(code: char)
    requires code in {'p', 'c', 's'}
    ensures StatusIsCoded(code)
  {}

  lemma Status2(code: char)
    requires code in {'f', 'x', 't'}
    ensures StatusIsCoded(code)
  {}

  lemma Status3(code: char)
    requires code in {'r', 'a', 'K'}
    ensures StatusIsCoded(code)
  {}

  lemma Status4(code: char)
    requires code in {'R', 'd', 'h'}
    ensures StatusIsCoded(code)
  {}

  lemma Status5(code: char)
    requires code in {'D', 'e', 'i'}
    ensures StatusIsCoded(code)
  {}

  lemma Status6(code: char)
    requires code in {'n', 'm'}
    ensures StatusIsCoded(code)
  {}

  lemma ContentType1(code: char)
    requires code in {'j', 'X'}
    ensures ContentTypeIsCoded(code)
  {}

  lemma ContentType2(code: char)
    requires code in {'J', 'H'}
    ensures ContentTypeIsCoded(code)
  {}

  lemma ContentType3(code: char)
    requires code in {'T', 'C'}
    ensures ContentTypeIsCoded(code)
  {}

  lemma ContentType4(code: char)
    requires code in {'V', 'v'}
    ensures ContentTypeIsCoded(code)
  {}

  lemma ContentType5(code: char)
    requires code in {'P', 'I'}
    ensures ContentTypeIsCoded(code)
  {}

  lemma ContentType6(code: char)
    requires code in {'G', 'S'}
    ensures ContentTypeIsCoded(code)
  {}

  lemma ContentType7(code: char)
    requires code in {'W', 'Q'}
    ensures ContentTypeIsCoded(code)
  {}

  lemma ContentType8(code: char)
    requires code in {'z', 'o'}
    ensures ContentTypeIsCoded(code)
  {}

  lemma ContentType9(code: char)
    requires code in {'u', 'F'}
    ensures ContentTypeIsCoded(code)
  {}

  lemma ContentType10(code: char)
    requires code in {'w', 'f'}
    ensures ContentTypeIsCoded(code)
  {}

  lemma OnlyContentType1(code: char)
    requires code in {'j', 'X'}
    ensures IsOnlyContentType(code)
  {}

  lemma OnlyContentType2(code: char)
    requires code in {'J', 'H'}
    ensures IsOnlyContentType(code)
  {}

  lemma OnlyContentType3(code: char)
    requires code in {'T', 'C'}
    ensures IsOnlyContentType(code)
  {}

  lemma OnlyContentType4(code: char)
    requires code in {'V', 'v'}
    ensures IsOnlyContentType(code)
  {}

  lemma OnlyContentType5(code: char)
    requires code in {'P', 'I'}
    ensures IsOnlyContentType(code)
  {}

  lemma OnlyContentType6(code: char)
    requires code in {'G', 'S'}
    ensures IsOnlyContentType(code)
  {}

  lemma OnlyContentType7(code: char)
    requires code in {'W', 'Q'}
    ensures IsOnlyContentType(code)
  {}

  lemma OnlyContentType8(code: char)
    requires code in {'z', 'o'}
    ensures IsOnlyContentType(code)
  {}

  lemma OnlyContentType9(code: char)
    requires code in {'u', 'F'}
    ensures IsOnlyContentType(code)
  {}

  lemma OnlyContentType10(code: char)
    requires code in {'w', 'f'}
    ensures IsOnlyContentType(code)
  {}

  lemma AllStatuses(code: char)
    requires StatusOf(code).Some?
    ensures StatusIsCoded(code)
  {
    if code in {'p', 'c', 's'} { Status1(code); }
    else if code in {'f', 'x', 't'} { Status2(code); }
    else if code in {'r', 'a', 'K'} { Status3(code); }
    else if code in {'R', 'd', 'h'} { Status4(code); }
    else if code in {'D', 'e', 'i'} { Status5(code); }
    else { Status6(code); }
  }

  lemma AllContentTypes(code: char)
    requires ContentTypeOf(code).Some?
    ensures ContentTypeIsCoded(code) && IsOnlyContentType(code)
  {
    if code in {'j', 'X'} { ContentType1(code); }
    else if code in {'J', 'H'} { ContentType2(code); }
    else if code in {'T', 'C'} { ContentType3(code); }
    else if code in {'V', 'v'} { ContentType4(code); }
    else if code in {'P', 'I'} { ContentType5(code); }
    else if code in {'G', 'S'} { ContentType6(code); }
    else if code in {'W', 'Q'} { ContentType7(code); }
    else if code in {'z', 'o'} { ContentType8(code); }
    else if code in {'u', 'F'} { ContentType9(code); }
    else { ContentType10(code); }
    if code in {'j', 'X'} { OnlyContentType1(code); }
    else if code in {'J', 'H'} { OnlyContentType2(code); }
    else if code in {'T', 'C'} { OnlyContentType3(code); }
    else if code in {'V', 'v'} { OnlyContentType4(code); }
    else if code in {'P', 'I'} { OnlyContentType5(code); }
    else if code in {'G', 'S'} { OnlyContentType6(code); }
    else if code in {'W', 'Q'} { OnlyContentType7(code); }
    else if code in {'z', 'o'} { OnlyContentType8(code); }
    else if code in {'u', 'F'} { OnlyContentType9(code); }
    else { OnlyContentType10(code); }
  }

  /** Each status and each content type has its own code of the table as its exact code. */
  lemma ValuesHaveTheirCodes(code: char, value: string)
    requires StatusOf(code) == Some(value) || ContentTypeOf(code) == Some(value)
    ensures ExactCode(value) == Some(code) && !IsInherited(value)
  {
    if StatusOf(code) == Some(value) { AllStatuses(code); } else { AllContentTypes(code); }
  }
}
