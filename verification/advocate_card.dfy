/**
  The display rules of one advocate's card: phone formatting, initials, the
  avatar colour, the collapsed specialty tags, and the experience line.
 */
module AdvocateCard {
  import opened Common
  import opened Text
  import opened AdvocateTypes

  // ---- phone number ----

  /** `formatPhoneNumber` returns either a formatted string or the number itself. */
  datatype PhoneText = Formatted(text: string) | AsNumber(number: int)

  /**
    A phone number whose decimal form has exactly ten characters is shown as
    `(XXX) XXX-XXXX`; any other number is shown as it is.
   */
  function FormatPhoneNumber(phoneNumber: int): (r: PhoneText)
    ensures r.Formatted? <==> |NumberString(phoneNumber)| == 10
    ensures r.AsNumber? ==> r.number == phoneNumber
    ensures r.Formatted? ==> |r.text| == 14
  {
    var s := NumberString(phoneNumber);
    if |s| == 10 then Formatted("(" + s[..3] + ") " + s[3..6] + "-" + s[6..])
    else AsNumber(phoneNumber)
  }

  predicate IsPunctuation(c: char) {
    c == '(' || c == ')' || c == ' ' || c == '-'
  }

  /** Removes the characters the formatting adds, keeping the rest in order. */
  function StripPunctuation(s: string): (r: string)
    ensures |r| <= |s|
  {
    if |s| == 0 then ""
    else (if IsPunctuation(s[0]) then "" else [s[0]]) + StripPunctuation(s[1..])
  }

  lemma {:induction false} StripAppend(x: string, y: string)
    ensures StripPunctuation(x + y) == StripPunctuation(x) + StripPunctuation(y)
  {
    if |x| == 0 {
      assert x + y == y;
    } else {
      var head := if IsPunctuation(x[0]) then "" else [x[0]];
      assert (x + y)[0] == x[0];
      assert (x + y)[1..] == x[1..] + y;
      StripAppend(x[1..], y);
      calc {
        StripPunctuation(x + y);
        head + StripPunctuation(x[1..] + y);
        head + (StripPunctuation(x[1..]) + StripPunctuation(y));
        (head + StripPunctuation(x[1..])) + StripPunctuation(y);
        StripPunctuation(x) + StripPunctuation(y);
      }
    }
  }

  lemma {:induction false} StripDigits(s: string)
    requires forall i :: 0 <= i < |s| ==> IsDigit(s[i])
    ensures StripPunctuation(s) == s
  {
    if |s| > 0 {
      StripDigits(s[1..]);
    }
  }

  /** Stripping `(a) b-c` leaves `a + b + c` when the parts carry no punctuation. */
  lemma StripFormatted(a: string, b: string, c: string)
    requires StripPunctuation(a) == a && StripPunctuation(b) == b && StripPunctuation(c) == c
    ensures StripPunctuation("(" + a + ") " + b + "-" + c) == a + b + c
  {
    var x1 := "(" + a;
    StripAppend("(", a);
    var x2 := x1 + ") ";
    StripAppend(x1, ") ");
    var x3 := x2 + b;
    StripAppend(x2, b);
    var x4 := x3 + "-";
    StripAppend(x3, "-");
    StripAppend(x4, c);
  }

  /**
    Formatting a non-negative number only inserts punctuation: stripping it
    gives back the digit string.
   */
  lemma FormattedPhoneRoundTrip(phoneNumber: int)
    requires phoneNumber >= 0
    requires FormatPhoneNumber(phoneNumber).Formatted?
    ensures StripPunctuation(FormatPhoneNumber(phoneNumber).text) == NumberString(phoneNumber)
  {
    var s := NumberString(phoneNumber);
    StripDigits(s[..3]);
    StripDigits(s[3..6]);
    StripDigits(s[6..]);
    StripFormatted(s[..3], s[3..6], s[6..]);
    assert s[..3] + s[3..6] + s[6..] == s;
  }

  /** A positive phone number is formatted iff it has exactly ten digits. */
  lemma FormattedIffTenDigits(phoneNumber: int)
    requires phoneNumber >= 1
    ensures FormatPhoneNumber(phoneNumber).Formatted? <==> 1_000_000_000 <= phoneNumber < 10_000_000_000
  {
    DecimalLengthIff(phoneNumber, 10);
    assert Pow10(9) == 1_000_000_000;
    assert Pow10(10) == 10_000_000_000;
  }

  // ---- avatar ----

  /** `${s[0]}`: the first character, or "undefined" for an empty string. */
  function FirstCharText(s: string): string {
    if |s| == 0 then "undefined" else [s[0]]
  }

  /** The avatar text: first letter of the first name, then of the last name. */
  function Initials(a: Advocate): (r: string)
    ensures |a.firstName| > 0 && |a.lastName| > 0 ==> |r| == 2 && r[0] == a.firstName[0] && r[1] == a.lastName[0]
  {
    FirstCharText(a.firstName) + FirstCharText(a.lastName)
  }

  const AvatarColors: seq<string> := [
    "bg-blue-100 text-blue-800",
    "bg-green-100 text-green-800",
    "bg-purple-100 text-purple-800",
    "bg-amber-100 text-amber-800",
    "bg-pink-100 text-pink-800",
    "bg-teal-100 text-teal-800"
  ]

  /** The sum of the character codes of `s`. */
  function CharCodeSum(s: string): nat {
    if |s| == 0 then 0 else s[0] as int + CharCodeSum(s[1..])
  }

  lemma {:induction false} CharCodeSumAppend(a: string, b: string)
    ensures CharCodeSum(a + b) == CharCodeSum(a) + CharCodeSum(b)
  {
    if |a| > 0 {
      assert (a + b)[0] == a[0];
      assert (a + b)[1..] == a[1..] + b;
      CharCodeSumAppend(a[1..], b);
    } else {
      assert a + b == b;
    }
  }

  /** `getColorForName`'s bucket: the character-code sum modulo the palette size. */
  function ColorIndex(name: string): (i: nat)
    ensures i < |AvatarColors|
  {
    CharCodeSum(name) % |AvatarColors|
  }

  function ColorForName(name: string): (c: string)
    ensures c in AvatarColors
  {
    AvatarColors[ColorIndex(name)]
  }

  /** The avatar colour of an advocate, from `${firstName} ${lastName}`. */
  function AvatarColor(a: Advocate): string {
    ColorForName(FullName(a))
  }

  /**
    The colour depends only on which characters the name contains, so
    swapping first and last name keeps it.
   */
  lemma ColorIgnoresNameOrder(first: string, last: string)
    ensures ColorForName(first + " " + last) == ColorForName(last + " " + first)
  {
    CharCodeSumAppend(first + " ", last);
    CharCodeSumAppend(first, " ");
    CharCodeSumAppend(last + " ", first);
    CharCodeSumAppend(last, " ");
  }

  // ---- specialties and experience ----

  const CollapsedTagCount: int := 3

  /** The specialty tags, and the hidden count of the "+N more" tag when there is one. */
  datatype TagView = TagView(shown: seq<string>, more: Option<nat>)

  function SpecialtyTags(specialties: seq<string>, isExpanded: bool): (t: TagView)
    ensures isExpanded ==> t.shown == specialties && t.more == None
    ensures !isExpanded ==> t.shown == specialties[..Min(CollapsedTagCount, |specialties|)]
    ensures t.more.Some? <==> !isExpanded && |specialties| > CollapsedTagCount
    ensures !isExpanded ==> |t.shown| + (if t.more.Some? then t.more.value else 0) == |specialties|
  {
    if isExpanded then TagView(specialties, None)
    else if |specialties| > CollapsedTagCount then
      TagView(specialties[..CollapsedTagCount], Some(|specialties| - CollapsedTagCount))
    else TagView(specialties, None)
  }

  /** The text of the "more" tag. */
  function MoreLabel(hidden: nat): string {
    "+" + NumberString(hidden) + " more"
  }

  /** "year" for exactly one year, "years" otherwise (including 0). */
  function YearWord(years: int): (w: string)
    ensures w == "year" <==> years == 1
    ensures w == "year" || w == "years"
  {
    if years == 1 then "year" else "years"
  }

  function ExperienceLine(years: int): string {
    NumberString(years) + " " + YearWord(years) + " experience"
  }

  // ---- the card ----

  /** What the card shows; the phone line only when expanded. */
  datatype Card = Card(
    initials: string,
    avatarColor: string,
    name: string,
    experience: string,
    tags: TagView,
    moreTag: Option<string>,
    phone: Option<PhoneText>,
    toggleLabel: string
  )

  function RenderCard(a: Advocate, isExpanded: bool): (c: Card)
    ensures c.initials == Initials(a) && c.name == FullName(a)
    ensures c.avatarColor == AvatarColor(a) && c.avatarColor in AvatarColors
    ensures c.experience == ExperienceLine(a.yearsOfExperience)
    ensures c.tags == SpecialtyTags(a.specialties, isExpanded)
    ensures c.moreTag.Some? <==> !isExpanded && |a.specialties| > CollapsedTagCount
    ensures c.moreTag.Some? ==> c.moreTag.value == MoreLabel(|a.specialties| - CollapsedTagCount)
    ensures c.phone.Some? <==> isExpanded
    ensures isExpanded ==> c.phone == Some(FormatPhoneNumber(a.phoneNumber))
    ensures c.toggleLabel == (if isExpanded then "Show less" else "Show more")
  {
    var tags := SpecialtyTags(a.specialties, isExpanded);
    Card(Initials(a), AvatarColor(a), FullName(a), ExperienceLine(a.yearsOfExperience),
         tags,
         if tags.more.Some? then Some(MoreLabel(tags.more.value)) else None,
         if isExpanded then Some(FormatPhoneNumber(a.phoneNumber)) else None,
         if isExpanded then "Show less" else "Show more")
  }

  /** A ten-digit number gets the parenthesised area code. */
  lemma SampleDigits()
    ensures NumberString(1234567890) == "1234567890"
  {
    assert Decimal(1) == "1";
    assert Decimal(12) == "12";
    assert Decimal(123) == "123";
    assert Decimal(1234) == "1234";
    assert Decimal(12345) == "12345";
    assert Decimal(123456) == "123456";
    assert Decimal(1234567) == "1234567";
    assert Decimal(12345678) == "12345678";
    assert Decimal(123456789) == "123456789";
  }

  lemma SamplePhone()
    ensures FormatPhoneNumber(1234567890) == Formatted("(123) 456-7890")
  {
    SampleDigits();
    var s := NumberString(1234567890);
    assert s[..3] == "123" && s[3..6] == "456" && s[6..] == "7890";
    assert "(" + s[..3] + ") " + s[3..6] + "-" + s[6..] == "(123) 456-7890";
  }

  /** Initials take one letter from each name. */
  lemma SampleInitials()
    ensures Initials(Advocate(None, "John", "Doe", "New York", "MD", [], 5, 1234567890, None)) == "JD"
  {
  }

  /** The experience line agrees in number with the count. */
  lemma SampleExperience()
    ensures ExperienceLine(5) == "5 years experience"
    ensures ExperienceLine(1) == "1 year experience"
    ensures ExperienceLine(0) == "0 years experience"
  {
    assert NumberString(5) == "5" && NumberString(1) == "1" && NumberString(0) == "0";
  }

  /** The more-tag text. */
  lemma SampleMoreLabel()
    ensures MoreLabel(2) == "+2 more"
  {
    assert NumberString(2) == "2";
  }
}
