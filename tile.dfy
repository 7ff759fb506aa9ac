/** Field extraction for one listing tile: the address, price and
    "mix" (type | rooms | size) paragraphs become the eight columns of a row. */
module Tile {
  import opened Outcome
  import opened PyStr

  /** The first text node of each of a tile's three paragraphs, when the
      paragraph is there. */
  datatype Tile = Tile(address: Option<String>, price: Option<String>, mix: Option<String>)

  /** One row of the table, in column order
      address, postcode, city, price, type, rooms, size_1, size_2. */
  datatype Listing = Listing(
    address: Option<String>,
    postcode: Option<String>,
    city: Option<String>,
    price: Option<nat>,
    kind: Option<String>,    // the "type" column
    rooms: Option<nat>,
    size1: Option<nat>,
    size2: Option<nat>)

  datatype AddressFields = AddressFields(address: Option<String>, postcode: Option<String>, city: Option<String>)

  datatype MixFields = MixFields(kind: Option<String>, rooms: Option<nat>, size1: Option<nat>, size2: Option<nat>)

  const AddressSeparator: String := ", "
  const MixSeparator: String := " | "

  // ---------------------------------------------------------------------
  // Address

  /** `s.split(', ')[-1]`: the text after the last ", " of `s`, or all of `s`. */
  function LastSegment(s: String): String {
    var parts := Split(s, AddressSeparator);
    parts[|parts| - 1]
  }

  /** The last segment is a suffix of `s` without ", ", and when it is not
      all of `s` a ", " comes right before it. */
  lemma LastSegmentSuffix(s: String)
    ensures var seg := LastSegment(s);
            && |seg| <= |s| && seg == s[|s| - |seg|..]
            && !Contains(seg, AddressSeparator)
            && (|seg| < |s| ==> |seg| + 2 <= |s| && s[|s| - |seg| - 2..|s| - |seg|] == AddressSeparator)
  {
    SplitLast(s, AddressSeparator);
  }

  /** The address paragraph, trimmed, and the postcode and city taken from
      its last ", " segment: the postcode is the text before the segment's
      first space and the city the text after it. */
  function CleanAddress(raw: Option<String>): AddressFields
  {
    match raw
    case None => AddressFields(None, None, None)
    case Some(a) =>
      var fullAddress := Strip(a);
      var segment := LastSegment(fullAddress);
      var cityParts := Split(segment, " ");
      AddressFields(
        Some(fullAddress),
        if |cityParts| > 1 then Some(cityParts[0]) else None,
        if |cityParts| > 1 then Some(Join(cityParts[1..], " ")) else None)
  }

  /** The address is the trimmed paragraph; postcode and city are both
      present exactly when the last ", " segment holds a space, and then
      they are the text around its first space. */
  lemma CleanAddressFields(raw: Option<String>, f: AddressFields)
    requires f == CleanAddress(raw)
    ensures raw.None? ==> f == AddressFields(None, None, None)
    ensures raw.Some? ==> f.address == Some(Strip(raw.value))
    ensures f.postcode.Some? <==> f.city.Some?
    ensures raw.Some? ==> (f.postcode.Some? <==> ' ' in LastSegment(Strip(raw.value)))
    ensures f.postcode.Some? ==>
              && raw.Some?
              && ' ' !in f.postcode.value
              && LastSegment(Strip(raw.value)) == f.postcode.value + " " + f.city.value
  {
    if raw.Some? {
      var segment := LastSegment(Strip(raw.value));
      var cityParts := Split(segment, " ");
      SplitParts(segment, " ");
      SplitFirst(segment, " ");
      ContainsChar(segment, ' ');
      ContainsChar(cityParts[0], ' ');
    }
  }

  /** An address without ", " that holds a space still gets a postcode and
      a city: the text before its first space and the text after it. */
  lemma AddressWithoutSeparator(raw: String)
    requires !Contains(Strip(raw), AddressSeparator) && ' ' in Strip(raw)
    ensures var f := CleanAddress(Some(raw));
            && f.postcode.Some? && f.city.Some?
            && ' ' !in f.postcode.value
            && Strip(raw) == f.postcode.value + " " + f.city.value
  {
    SplitWithout(Strip(raw), AddressSeparator);
    CleanAddressFields(Some(raw), CleanAddress(Some(raw)));
  }

  /** In `s + ", " + t`, with no ", " inside `t`, a ", " starts either within
      `s` (ending at the latest where `s` ends) or right after `s`. */
  lemma SeparatorPosition(s: String, t: String, k: int)
    requires !Contains(t, AddressSeparator)
    ensures OccursAt(s + AddressSeparator + t, AddressSeparator, k) ==> k <= |s| - 2 || k == |s|
  {
    var w := s + AddressSeparator + t;
    assert w == (s + AddressSeparator) + t;
    OccursInSuffix(s + AddressSeparator, t, AddressSeparator, k);
    if OccursAt(w, AddressSeparator, k) {
      assert w[k] == ',' && w[k + 1] == ' ';
    }
  }

  /** The last ", " segment of `s + ", " + t` is `t` when `t` holds no ", ". */
  lemma LastSegmentAfter(s: String, t: String)
    requires !Contains(t, AddressSeparator)
    ensures LastSegment(s + AddressSeparator + t) == t
  {
    var w := s + AddressSeparator + t;
    var n := |w|;
    var seg := LastSegment(w);
    LastSegmentSuffix(w);
    SeparatorPosition(s, t, n - |seg| - 2);
    assert |seg| <= |t| + 1 by {
      if |seg| >= |t| + 2 {
        assert seg[|seg| - |t| - 2..|seg| - |t|] == w[n - |t| - 2..n - |t|];
        assert OccursAt(seg, AddressSeparator, |seg| - |t| - 2);
      }
    }
    assert w[n - |t|..] == t;
  }

  /** "postcode city" holds no ", " when the postcode is digits and the
      city holds none. */
  lemma SegmentAvoidsSeparator(postcode: String, city: String)
    requires AllDigits(postcode) && !Contains(city, AddressSeparator)
    ensures !Contains(postcode + " " + city, AddressSeparator)
  {
    var segment := postcode + " " + city;
    forall k ensures !OccursAt(segment, AddressSeparator, k) {
      OccursAtIndex(segment, AddressSeparator, k, 0);
      OccursAtIndex(segment, AddressSeparator, k, 1);
      OccursInSuffix(postcode + " ", city, AddressSeparator, k);
    }
  }

  /** Cleaning a formatted address "street, postcode city" gives its parts
      back, for a postcode of digits and a city without ", ". */
  lemma CleanAddressRoundTrip(street: String, postcode: String, city: String)
    requires street != [] ==> !IsSpace(street[0])
    requires postcode != [] && AllDigits(postcode)
    requires city != [] && !IsSpace(city[|city| - 1]) && !Contains(city, AddressSeparator)
    ensures var address := street + AddressSeparator + postcode + " " + city;
            CleanAddress(Some(address)) == AddressFields(Some(address), Some(postcode), Some(city))
  {
    var segment := postcode + " " + city;
    var address := street + AddressSeparator + segment;
    assert address == street + AddressSeparator + postcode + " " + city;
    StripUnchanged(address);
    SegmentAvoidsSeparator(postcode, city);
    DigitsAvoid(postcode);
    LastSegmentAfter(street, segment);
    SplitAtSep(postcode, " ", city);
    SplitParts(city, " ");
    var cityParts := Split(segment, " ");
    assert cityParts[1..] == Split(city, " ");
  }

  // ---------------------------------------------------------------------
  // Price

  /** `''.join(filter(str.isdigit, p))` followed by `int(...)`: the number
      written by the digits of the price paragraph, read in order and
      ignoring every other character. No digit at all raises `ValueError`. */
  function CleanPrice(raw: Option<String>): Result<Option<nat>>
  {
    match raw
    case None => Success(None)
    case Some(p) =>
      var cleaned := Filter(IsDigit, p);
      var n :- ParseInt(cleaned);
      Success(Some(n))
  }

  /** Three digits, with leading zeros, for a number below 1000. */
  function ThreeDigits(m: nat): String
    requires m < 1000
  {
    ['0' + (m / 100) as char, '0' + (m / 10 % 10) as char, '0' + (m % 10) as char]
  }

  lemma ThreeDigitsValue(m: nat)
    requires m < 1000
    ensures AllDigits(ThreeDigits(m)) && DecimalValue(ThreeDigits(m)) == m
  {
    var t := ThreeDigits(m);
    var hundreds, tens, ones := m / 100, m / 10 % 10, m % 10;
    assert t[..2][..1] == t[..1];
    assert DecimalValue(t[..1]) == hundreds;
    assert DecimalValue(t[..2]) == 10 * hundreds + tens;
    assert DecimalValue(t) == 10 * (10 * hundreds + tens) + ones;
    DecimalDigitsOf(m);
  }

  /** A number below 1000 is its hundreds, tens and ones. */
  lemma DecimalDigitsOf(m: nat)
    requires m < 1000
    ensures 10 * (10 * (m / 100) + m / 10 % 10) + m % 10 == m
  {
  }

  /** A price the way the site prints its digits: groups of three separated
      by dots, as in "1.250.000". */
  function ThousandsFormat(n: nat): String {
    if n < 1000 then DecimalString(n) else ThousandsFormat(n / 1000) + "." + ThreeDigits(n % 1000)
  }

  /** Filtering a dotted price drops the dot before its last group. */
  lemma ThousandsFilter(n: nat)
    requires n >= 1000
    ensures Filter(IsDigit, ThousandsFormat(n)) == Filter(IsDigit, ThousandsFormat(n / 1000)) + ThreeDigits(n % 1000)
  {
    var head := ThousandsFormat(n / 1000);
    var tail := ThreeDigits(n % 1000);
    FilterAppend(IsDigit, head + ".", tail);
    FilterAppend(IsDigit, head, ".");
    FilterNone(IsDigit, ".");
    ThreeDigitsValue(n % 1000);
    FilterAll(IsDigit, tail);
  }

  /** Appending the three digits of `n % 1000` to the digits of `n / 1000`
      spells `n`. */
  lemma AppendGroupValue(n: nat, digits: String)
    requires AllDigits(digits) && DecimalValue(digits) == n / 1000
    ensures AllDigits(digits + ThreeDigits(n % 1000))
    ensures DecimalValue(digits + ThreeDigits(n % 1000)) == n
  {
    var tail := ThreeDigits(n % 1000);
    ThreeDigitsValue(n % 1000);
    DecimalValueAppend(digits, tail);
    assert |tail| == 3 && Pow10(3) == 1000;
    var high := DecimalValue(digits);
    assert DecimalValue(digits + tail) == high * 1000 + n % 1000;
    ThousandsOf(n);
  }

  lemma ThousandsOf(n: nat)
    ensures n / 1000 * 1000 + n % 1000 == n
  {
  }

  /** The digits of a dotted price spell the price. */
  lemma {:induction false} ThousandsDigits(n: nat)
    ensures var d := Filter(IsDigit, ThousandsFormat(n));
            d != [] && AllDigits(d) && DecimalValue(d) == n
  {
    if n < 1000 {
      FilterAll(IsDigit, DecimalString(n));
    } else {
      ThousandsDigits(n / 1000);
      ThousandsFilter(n);
      AppendGroupValue(n, Filter(IsDigit, ThousandsFormat(n / 1000)));
    }
  }

  /** Cleaning a price paragraph that shows a dotted price among text
      without digits ("1.250.000 kr.") gives back the price. */
  lemma CleanPriceRoundTrip(prefix: String, n: nat, suffix: String)
    requires forall k :: 0 <= k < |prefix| ==> !IsDigit(prefix[k])
    requires forall k :: 0 <= k < |suffix| ==> !IsDigit(suffix[k])
    ensures CleanPrice(Some(prefix + ThousandsFormat(n) + suffix)) == Success(Some(n))
  {
    var f := ThousandsFormat(n);
    FilterAppend(IsDigit, prefix + f, suffix);
    FilterAppend(IsDigit, prefix, f);
    FilterNone(IsDigit, prefix);
    FilterNone(IsDigit, suffix);
    ThousandsDigits(n);
    assert Filter(IsDigit, prefix + f + suffix) == Filter(IsDigit, f);
  }

  /** A price paragraph succeeds exactly when it holds a digit, and gives
      the number its digits spell; with no digit the literal handed to
      `int` is empty. An absent paragraph gives an absent price. */
  lemma CleanPriceDigits(raw: Option<String>, r: Result<Option<nat>>)
    requires r == CleanPrice(raw)
    ensures raw.None? ==> r == Success(None)
    ensures raw.Some? ==> (r.Success? <==> exists k :: 0 <= k < |raw.value| && IsDigit(raw.value[k]))
    ensures raw.Some? && r.Failure? ==> r.error == ValueError([])
    ensures raw.Some? && r.Success? ==>
              r.value.Some? && r.value.value == DecimalValue(Filter(IsDigit, raw.value))
  {
    if raw.Some? {
      var cleaned := Filter(IsDigit, raw.value);
      FilterMembers(IsDigit, raw.value);
      assert cleaned != [] ==> cleaned[0] in raw.value;
    }
  }

  // ---------------------------------------------------------------------
  // Mix descriptor

  /** `s.split()[0]`: the first word of `s`; `IndexError` when there is none. */
  function FirstWord(s: String): Result<String> {
    var words := Words(s);
    if |words| == 0 then Failure(IndexError) else Success(words[0])
  }

  /** `[0]` of `s.split()` raises `IndexError` exactly when `s` is all
      whitespace, and otherwise gives a non-empty word. */
  lemma FirstWordOutcome(s: String)
    ensures FirstWord(s).Success? <==> !AllSpace(s)
    ensures FirstWord(s).Failure? ==> FirstWord(s).error == IndexError
    ensures FirstWord(s).Success? ==>
              FirstWord(s).value != [] && NoSpace(FirstWord(s).value) && FirstWord(s).value == Words(s)[0]
  {
    WordsAreWords(s);
  }

  /** Rooms: the integer value of the first word of part 1, when there is a part 1. */
  function ParseRooms(parts: seq<String>): Result<Option<nat>>
  {
    if |parts| > 1 then
      var word :- FirstWord(parts[1]);
      var n :- ParseInt(word);
      Success(Some(n))
    else
      Success(None)
  }

  /** Rooms are absent without a part 1; otherwise they are the value of
      its first word, and fail unless that word is all digits: with
      `IndexError` when part 1 is all whitespace, else with `ValueError`
      on the word. */
  lemma ParseRoomsValue(parts: seq<String>)
    ensures |parts| <= 1 ==> ParseRooms(parts) == Success(None)
    ensures |parts| > 1 && AllSpace(parts[1]) ==> ParseRooms(parts) == Failure(IndexError)
    ensures |parts| > 1 && !AllSpace(parts[1]) ==>
              && |Words(parts[1])| > 0
              && (!(Words(parts[1])[0] != [] && AllDigits(Words(parts[1])[0])) ==>
                    ParseRooms(parts) == Failure(ValueError(Words(parts[1])[0])))
    ensures |parts| > 1 ==>
              (ParseRooms(parts).Success? <==> !AllSpace(parts[1]) && ParseInt(Words(parts[1])[0]).Success?)
    ensures |parts| > 1 && ParseRooms(parts).Success? ==>
              && !AllSpace(parts[1])
              && Words(parts[1])[0] != [] && AllDigits(Words(parts[1])[0])
              && ParseRooms(parts).value == Some(DecimalValue(Words(parts[1])[0]))
  {
    if |parts| > 1 {
      FirstWordOutcome(parts[1]);
    }
  }

  /** Sizes: the first word of part 2, cut at "/"; its first piece is
      size_1 and its second piece, when there is one, size_2. */
  function ParseSizes(parts: seq<String>): Result<(Option<nat>, Option<nat>)>
  {
    if |parts| > 2 then
      var word :- FirstWord(parts[2]);
      var sizeParts := Split(word, "/");
      var size1 :- ParseInt(sizeParts[0]);
      if |sizeParts| > 1 then
        var size2 :- ParseInt(sizeParts[1]);
        Success((Some(size1), Some(size2)))
      else
        Success((Some(size1), None))
    else
      Success((None, None))
  }

  /** Sizes are absent without a part 2. With a part 2 of nothing but
      whitespace, `[0]` raises `IndexError`. Otherwise its first word is cut
      at "/": the sizes parse exactly when the first piece, and the second
      piece when there is one, are decimal literals; size_1 is the value of
      the first piece and size_2, present exactly when there is a second
      piece, the value of that piece; a piece that is not a literal raises
      `ValueError` with that piece, the first piece checked first. */
  lemma ParseSizesValue(parts: seq<String>)
    ensures |parts| <= 2 ==> ParseSizes(parts) == Success((None, None))
    ensures |parts| > 2 && AllSpace(parts[2]) ==> ParseSizes(parts) == Failure(IndexError)
    ensures |parts| > 2 && !AllSpace(parts[2]) ==>
              && |Words(parts[2])| > 0
              && var pieces := Split(Words(parts[2])[0], "/");
                 && (ParseSizes(parts).Success? <==>
                       && pieces[0] != [] && AllDigits(pieces[0])
                       && (|pieces| > 1 ==> pieces[1] != [] && AllDigits(pieces[1])))
                 && (!(pieces[0] != [] && AllDigits(pieces[0])) ==>
                       ParseSizes(parts) == Failure(ValueError(pieces[0])))
                 && (pieces[0] != [] && AllDigits(pieces[0]) && |pieces| > 1
                     && !(pieces[1] != [] && AllDigits(pieces[1])) ==>
                       ParseSizes(parts) == Failure(ValueError(pieces[1])))
    ensures |parts| > 2 && ParseSizes(parts).Success? ==>
              && !AllSpace(parts[2])
              && var pieces := Split(Words(parts[2])[0], "/");
                 && pieces[0] != [] && AllDigits(pieces[0])
                 && ParseSizes(parts).value.0 == Some(DecimalValue(pieces[0]))
                 && (|pieces| > 1 <==> ParseSizes(parts).value.1.Some?)
                 && (|pieces| > 1 ==> pieces[1] != [] && AllDigits(pieces[1])
                                      && ParseSizes(parts).value.1 == Some(DecimalValue(pieces[1])))
  {
    if |parts| > 2 {
      FirstWordOutcome(parts[2]);
    }
  }

  /** The mix paragraph, whitespace collapsed and cut at " | ": type is the
      text before the first " | ", rooms come from part 1 and sizes from part 2. */
  function CleanMix(raw: Option<String>): Result<MixFields>
  {
    match raw
    case None => Success(MixFields(None, None, None, None))
    case Some(m) =>
      var cleaned := Collapse(m);
      var parts := Split(cleaned, MixSeparator);
      var kind := if |parts| > 0 then Some(parts[0]) else None;
      var rooms :- ParseRooms(parts);
      var sizes :- ParseSizes(parts);
      Success(MixFields(kind, rooms, sizes.0, sizes.1))
  }

  /** The type is always present and is the collapsed text up to its first
      " | " (all of it when there is none); rooms are those of part 1 and
      sizes those of part 2, so rooms are present exactly when there is a
      second part and size_1 when there is a third; the mix fails exactly
      when the rooms or the sizes fail, with the rooms' exception first. */
  lemma CleanMixFields(raw: Option<String>, r: Result<MixFields>)
    requires r == CleanMix(raw)
    ensures raw.None? ==> r == Success(MixFields(None, None, None, None))
    ensures raw.Some? && r.Success? ==>
              var cleaned := Collapse(raw.value);
              var parts := Split(cleaned, MixSeparator);
              && r.value.kind == Some(parts[0])
              && |r.value.kind.value| <= |cleaned|
              && r.value.kind.value == cleaned[..|r.value.kind.value|]
              && (forall j :: 0 <= j < |r.value.kind.value| ==> !OccursAt(cleaned, MixSeparator, j))
              && (|r.value.kind.value| == |cleaned|
                  || OccursAt(cleaned, MixSeparator, |r.value.kind.value|))
              && ParseRooms(parts).Success? && r.value.rooms == ParseRooms(parts).value
              && ParseSizes(parts).Success? && (r.value.size1, r.value.size2) == ParseSizes(parts).value
              && (r.value.rooms.Some? <==> |parts| > 1)
              && (r.value.size1.Some? <==> |parts| > 2)
              && (r.value.size2.Some? ==> |parts| > 2)
    ensures raw.Some? ==>
              var parts := Split(Collapse(raw.value), MixSeparator);
              (r.Success? <==> ParseRooms(parts).Success? && ParseSizes(parts).Success?)
    ensures raw.Some? && r.Failure? ==>
              var parts := Split(Collapse(raw.value), MixSeparator);
              if ParseRooms(parts).Failure? then r.error == ParseRooms(parts).error
              else ParseSizes(parts).Failure? && r.error == ParseSizes(parts).error
  {
    if raw.Some? {
      var parts := Split(Collapse(raw.value), MixSeparator);
      SplitFirst(Collapse(raw.value), MixSeparator);
      SplitParts(Collapse(raw.value), MixSeparator);
      ParseRoomsValue(parts);
      ParseSizesValue(parts);
    }
  }

  /** The area part of a descriptor as the site prints it: the living area,
      then "/" and the lot size when there is one. */
  function AreaText(size1: nat, size2: Option<nat>): String {
    match size2
    case None => DecimalString(size1)
    case Some(lot) => DecimalString(size1) + "/" + DecimalString(lot)
  }

  /** A descriptor as the site prints it: "Villa | 5 rum | 180/220 m²", or
      "Villa | 5 rum" when it shows no area. */
  function MixText(kind: String, rooms: nat, area: Option<(nat, Option<nat>)>): String {
    var head := kind + MixSeparator + DecimalString(rooms) + " rum";
    match area
    case None => head
    case Some((size1, size2)) => head + MixSeparator + AreaText(size1, size2) + " m²"
  }

  /** The area is one word without "|", and cutting it at "/" gives the
      digits of each size. */
  lemma AreaTextPieces(size1: nat, size2: Option<nat>)
    ensures IsWord(AreaText(size1, size2)) && '|' !in AreaText(size1, size2)
    ensures Split(AreaText(size1, size2), "/") ==
              match size2
              case None => [DecimalString(size1)]
              case Some(lot) => [DecimalString(size1), DecimalString(lot)]
  {
    var d1 := DecimalString(size1);
    DigitsAvoid(d1);
    match size2
    case None =>
      MissingChar(d1, "/", 0);
      SplitWithout(d1, "/");
    case Some(lot) =>
      var d2 := DecimalString(lot);
      DigitsAvoid(d2);
      MissingChar(d2, "/", 0);
      SplitWithout(d2, "/");
      SplitAtSep(d1, "/", d2);
      SizesAvoid(d1, d2);
  }

  /** "180/220" holds neither whitespace nor a bar. */
  lemma SizesAvoid(d1: String, d2: String)
    requires AllDigits(d1) && AllDigits(d2)
    ensures NoSpace(d1 + "/" + d2) && '|' !in d1 + "/" + d2
  {
    var a := d1 + "/" + d2;
    forall i | 0 <= i < |a| ensures !IsSpace(a[i]) && a[i] != '|' {
      if i < |d1| {
        assert a[i] == d1[i] && IsDigit(d1[i]);
      } else if i > |d1| {
        assert a[i] == d2[i - |d1| - 1] && IsDigit(d2[i - |d1| - 1]);
      }
    }
  }

  /** The words of a printed descriptor, in order. */
  function MixWords(kind: String, rooms: nat, area: Option<(nat, Option<nat>)>): seq<String> {
    var d := DecimalString(rooms);
    match area
    case None => [kind, "|", d, "rum"]
    case Some((size1, size2)) => [kind, "|", d, "rum", "|", AreaText(size1, size2), "m²"]
  }

  /** Two single spaces around a bar are the descriptor separator. */
  lemma SpacedBar(x: String)
    ensures x + " " + "|" + " " == x + MixSeparator
  {
  }

  /** One more word joined with a single space. */
  lemma JoinWord(parts: seq<String>, word: String)
    requires |parts| >= 1
    ensures Join(parts + [word], " ") == Join(parts, " ") + (" " + word)
  {
    JoinSnoc(parts, word, " ");
    ConcatAssoc(Join(parts, " "), " ", word);
  }

  /** The words before the area, joined: "Villa | 5 rum". */
  lemma JoinHead(kind: String, d: String)
    ensures Join([kind, "|", d, "rum"], " ") == kind + MixSeparator + d + " rum"
  {
    JoinSnoc([kind], "|", " ");
    assert [kind] + ["|"] == [kind, "|"];
    JoinSnoc([kind, "|"], d, " ");
    assert [kind, "|"] + [d] == [kind, "|", d];
    SpacedBar(kind);
    JoinWord([kind, "|", d], "rum");
    assert [kind, "|", d] + ["rum"] == [kind, "|", d, "rum"];
  }

  /** All seven words joined: "Villa | 5 rum | 180/220 m²". */
  lemma JoinArea(kind: String, d: String, a: String)
    ensures Join([kind, "|", d, "rum", "|", a, "m²"], " ") == kind + MixSeparator + d + " rum" + MixSeparator + a + " m²"
  {
    var head := [kind, "|", d, "rum"];
    JoinHead(kind, d);
    JoinSnoc(head, "|", " ");
    assert head + ["|"] == [kind, "|", d, "rum", "|"];
    JoinSnoc([kind, "|", d, "rum", "|"], a, " ");
    assert [kind, "|", d, "rum", "|"] + [a] == [kind, "|", d, "rum", "|", a];
    SpacedBar(Join(head, " "));
    JoinWord([kind, "|", d, "rum", "|", a], "m²");
    assert [kind, "|", d, "rum", "|", a] + ["m²"] == [kind, "|", d, "rum", "|", a, "m²"];
  }

  /** A printed descriptor is its words joined by single spaces. */
  lemma MixTextJoin(kind: String, rooms: nat, area: Option<(nat, Option<nat>)>)
    ensures Join(MixWords(kind, rooms, area), " ") == MixText(kind, rooms, area)
  {
    JoinHead(kind, DecimalString(rooms));
    match area
    case None =>
    case Some((size1, size2)) =>
      JoinArea(kind, DecimalString(rooms), AreaText(size1, size2));
  }

  /** Collapsing the whitespace of a printed descriptor changes nothing. */
  lemma MixTextCollapsed(kind: String, rooms: nat, area: Option<(nat, Option<nat>)>)
    requires IsWord(kind)
    ensures Collapse(MixText(kind, rooms, area)) == MixText(kind, rooms, area)
  {
    var ws := MixWords(kind, rooms, area);
    var d := DecimalString(rooms);
    assert NoSpace(d) by {
      forall i | 0 <= i < |d| ensures !IsSpace(d[i]) {
        assert IsDigit(d[i]);
      }
    }
    if area.Some? {
      AreaTextPieces(area.value.0, area.value.1);
    }
    assert forall i :: 0 <= i < |ws| ==> IsWord(ws[i]);
    WordsJoin(ws);
    MixTextJoin(kind, rooms, area);
  }

  /** A printed descriptor with an area, grouped as type, separator, rooms
      part, separator, area part. */
  lemma MixTextShape(kind: String, rooms: nat, size1: nat, size2: Option<nat>)
    ensures var roomsPart := DecimalString(rooms) + " rum";
            var areaPart := AreaText(size1, size2) + " m²";
            MixText(kind, rooms, Some((size1, size2))) == kind + MixSeparator + (roomsPart + MixSeparator + areaPart)
  {
    var h, d, a := kind + MixSeparator, DecimalString(rooms), AreaText(size1, size2);
    var roomsPart, areaPart := d + " rum", a + " m²";
    ConcatAssoc(h, d, " rum");
    ConcatAssoc(h + roomsPart + MixSeparator, a, " m²");
    ConcatAssoc(h + roomsPart, MixSeparator, areaPart);
    ConcatAssoc(h, roomsPart, MixSeparator + areaPart);
    ConcatAssoc(roomsPart, MixSeparator, areaPart);
  }

  /** The rooms part "5 rum" holds no bar. */
  lemma RoomsPartAvoidsBar(rooms: nat)
    ensures '|' !in DecimalString(rooms) + " rum"
  {
    var d := DecimalString(rooms);
    DigitsAvoid(d);
    var roomsPart := d + " rum";
    forall i | 0 <= i < |roomsPart| ensures roomsPart[i] != '|' {
      if i < |d| {
        assert roomsPart[i] == d[i];
      }
    }
  }

  /** Cutting "Villa | 5 rum" at " | " gives the type and the rooms part. */
  lemma HeadParts(kind: String, rooms: nat)
    requires IsWord(kind)
    ensures Split(MixText(kind, rooms, None), MixSeparator) == [kind, DecimalString(rooms) + " rum"]
  {
    var d := DecimalString(rooms);
    var roomsPart := d + " rum";
    RoomsPartAvoidsBar(rooms);
    NoSpaceAvoidsBlank(kind);
    assert MixSeparator[0] !in kind;
    MissingChar(roomsPart, MixSeparator, 1);
    SplitWithout(roomsPart, MixSeparator);
    ConcatAssoc(kind + MixSeparator, d, " rum");
    SplitAtSep(kind, MixSeparator, roomsPart);
  }

  /** Cutting "5 rum | 180/220 m²" at " | " gives the rooms part and the
      area part. */
  lemma TailParts(rooms: nat, size1: nat, size2: Option<nat>)
    ensures var roomsPart := DecimalString(rooms) + " rum";
            var areaPart := AreaText(size1, size2) + " m²";
            Split(roomsPart + MixSeparator + areaPart, MixSeparator) == [roomsPart, areaPart]
  {
    var roomsPart := DecimalString(rooms) + " rum";
    var areaPart := AreaText(size1, size2) + " m²";
    RoomsPartAvoidsBar(rooms);
    AreaTextPieces(size1, size2);
    assert MixSeparator[1] != MixSeparator[0] && MixSeparator[1] !in roomsPart;
    MissingChar(areaPart, MixSeparator, 1);
    SplitWithout(areaPart, MixSeparator);
    SplitAtSep(roomsPart, MixSeparator, areaPart);
  }

  /** Cutting "Villa | 5 rum | 180/220 m²" at " | " gives the type, the rooms
      part and the area part. */
  lemma AreaParts(kind: String, rooms: nat, size1: nat, size2: Option<nat>)
    requires IsWord(kind)
    ensures Split(MixText(kind, rooms, Some((size1, size2))), MixSeparator) ==
              [kind, DecimalString(rooms) + " rum", AreaText(size1, size2) + " m²"]
  {
    var roomsPart := DecimalString(rooms) + " rum";
    var areaPart := AreaText(size1, size2) + " m²";
    TailParts(rooms, size1, size2);
    NoSpaceAvoidsBlank(kind);
    assert MixSeparator[0] !in kind;
    MixTextShape(kind, rooms, size1, size2);
    SplitAtSep(kind, MixSeparator, roomsPart + MixSeparator + areaPart);
  }

  /** Cutting a printed descriptor at " | " gives the type, the rooms part
      and, when it shows an area, the area part. */
  lemma MixTextParts(kind: String, rooms: nat, area: Option<(nat, Option<nat>)>)
    requires IsWord(kind)
    ensures Split(MixText(kind, rooms, area), MixSeparator) ==
              [kind, DecimalString(rooms) + " rum"]
              + match area
                case None => []
                case Some((size1, size2)) => [AreaText(size1, size2) + " m²"]
  {
    match area
    case None =>
      HeadParts(kind, rooms);
    case Some((size1, size2)) =>
      AreaParts(kind, rooms, size1, size2);
  }

  /** A rooms part printed as "5 rum" gives its number of rooms. */
  lemma PrintedRooms(parts: seq<String>, rooms: nat)
    requires |parts| > 1 && parts[1] == DecimalString(rooms) + " rum"
    ensures ParseRooms(parts) == Success(Some(rooms))
  {
    DigitsAvoid(DecimalString(rooms));
    WordsOfWordThen(DecimalString(rooms), " rum");
    ParseDecimalString(rooms);
  }

  /** An area part printed as "180/220 m²" or "85 m²" gives its sizes. */
  lemma PrintedSizes(parts: seq<String>, size1: nat, size2: Option<nat>)
    requires |parts| > 2 && parts[2] == AreaText(size1, size2) + " m²"
    ensures ParseSizes(parts) == Success((Some(size1), size2))
  {
    AreaTextPieces(size1, size2);
    WordsOfWordThen(AreaText(size1, size2), " m²");
    ParseDecimalString(size1);
    if size2.Some? {
      ParseDecimalString(size2.value);
    }
  }

  /** Cleaning a printed descriptor gives back its type, rooms and sizes;
      without an area both sizes are absent. */
  lemma CleanMixRoundTrip(kind: String, rooms: nat, area: Option<(nat, Option<nat>)>)
    requires IsWord(kind)
    ensures CleanMix(Some(MixText(kind, rooms, area))) ==
              match area
              case None => Success(MixFields(Some(kind), Some(rooms), None, None))
              case Some((size1, size2)) => Success(MixFields(Some(kind), Some(rooms), Some(size1), size2))
  {
    MixTextCollapsed(kind, rooms, area);
    MixTextParts(kind, rooms, area);
    var parts := Split(MixText(kind, rooms, area), MixSeparator);
    PrintedRooms(parts, rooms);
    match area
    case None =>
    case Some((size1, size2)) =>
      PrintedSizes(parts, size1, size2);
  }

  // ---------------------------------------------------------------------
  // One tile

  /** The row for one tile. The price is parsed before the mix, so a bad
      price is the exception reported even when the mix is bad too. */
  function ParseTile(t: Tile): Result<Listing>
  {
    var a := CleanAddress(t.address);
    var price :- CleanPrice(t.price);
    var m :- CleanMix(t.mix);
    Success(Listing(a.address, a.postcode, a.city, price, m.kind, m.rooms, m.size1, m.size2))
  }

  /** A tile parses exactly when its price and its mix do; a bad price is
      reported before a bad mix; address, price and type are present
      exactly when their paragraphs are. */
  lemma ParseTileOutcome(t: Tile, r: Result<Listing>)
    requires r == ParseTile(t)
    ensures r.Success? <==> CleanPrice(t.price).Success? && CleanMix(t.mix).Success?
    ensures CleanPrice(t.price).Failure? ==> r == Failure(CleanPrice(t.price).error)
    ensures CleanPrice(t.price).Success? && CleanMix(t.mix).Failure? ==> r == Failure(CleanMix(t.mix).error)
    ensures r.Success? ==>
              && (r.value.address.Some? <==> t.address.Some?)
              && (r.value.price.Some? <==> t.price.Some?)
              && (r.value.kind.Some? <==> t.mix.Some?)
  {
    CleanPriceDigits(t.price, CleanPrice(t.price));
    CleanMixFields(t.mix, CleanMix(t.mix));
  }

  /** A missing paragraph leaves every field it feeds absent. */
  lemma AbsentFragments(t: Tile)
    requires ParseTile(t).Success?
    ensures var row := ParseTile(t).value;
            && (t.address.None? ==> row.address.None? && row.postcode.None? && row.city.None?)
            && (t.price.None? ==> row.price.None?)
            && (t.mix.None? ==> row.kind.None? && row.rooms.None? && row.size1.None? && row.size2.None?)
  {
  }

  /** A tile printed the way the site prints one, with all three paragraphs,
      parses to the listing it shows. */
  lemma ParseTileRoundTrip(street: String, postcode: String, city: String,
                           pricePrefix: String, price: nat, priceSuffix: String,
                           kind: String, rooms: nat, area: Option<(nat, Option<nat>)>)
    requires street != [] ==> !IsSpace(street[0])
    requires postcode != [] && AllDigits(postcode)
    requires city != [] && !IsSpace(city[|city| - 1]) && !Contains(city, AddressSeparator)
    requires forall k :: 0 <= k < |pricePrefix| ==> !IsDigit(pricePrefix[k])
    requires forall k :: 0 <= k < |priceSuffix| ==> !IsDigit(priceSuffix[k])
    requires IsWord(kind)
    ensures var address := street + AddressSeparator + postcode + " " + city;
            var t := Tile(Some(address), Some(pricePrefix + ThousandsFormat(price) + priceSuffix),
                          Some(MixText(kind, rooms, area)));
            var size1 := if area.Some? then Some(area.value.0) else None;
            var size2 := if area.Some? then area.value.1 else None;
            ParseTile(t) == Success(Listing(Some(address), Some(postcode), Some(city), Some(price),
                                            Some(kind), Some(rooms), size1, size2))
  {
    CleanAddressRoundTrip(street, postcode, city);
    CleanPriceRoundTrip(pricePrefix, price, priceSuffix);
    CleanMixRoundTrip(kind, rooms, area);
  }
}
