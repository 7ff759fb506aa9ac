/** The Python string operations the scraper relies on, over `seq<char>`:
    `str.strip()`, `str.split(sep)`, `str.split()`, `sep.join(parts)`,
    the built-in `filter`, `str.isdigit` and `int(...)` on decimal text. */
module PyStr {
  import opened Outcome

  type String = seq<char>

  /** Python's `str.isspace` for a single character. */
  predicate IsSpace(c: char) {
    ('\t' <= c <= '\r') || ('\U{1C}' <= c <= ' ') || c == '\U{85}' || c == '\U{A0}'
    || c == '\U{1680}' || ('\U{2000}' <= c <= '\U{200A}') || c == '\U{2028}' || c == '\U{2029}'
    || c == '\U{202F}' || c == '\U{205F}' || c == '\U{3000}'
  }

  predicate AllSpace(s: String) {
    forall k :: 0 <= k < |s| ==> IsSpace(s[k])
  }

  predicate NoSpace(s: String) {
    forall k :: 0 <= k < |s| ==> !IsSpace(s[k])
  }

  lemma NoSpaceAvoidsBlank(s: String)
    requires NoSpace(s)
    ensures ' ' !in s
  {
    forall i | 0 <= i < |s| ensures s[i] != ' ' {
      assert !IsSpace(s[i]);
    }
  }

  /** A word in the sense of `str.split()`: non-empty, without whitespace. */
  predicate IsWord(s: String) {
    s != [] && NoSpace(s)
  }

  // ---------------------------------------------------------------------
  // str.strip()

  /** The number of whitespace characters at the start of `s`. */
  function LeadingSpace(s: String): (n: nat)
    ensures n <= |s| && AllSpace(s[..n])
    ensures n < |s| ==> !IsSpace(s[n])
  {
    if s != [] && IsSpace(s[0]) then
      var m := LeadingSpace(s[1..]);
      m + 1
    else 0
  }

  /** The length of `s` without its trailing whitespace. */
  function ContentEnd(s: String): (n: nat)
    ensures n <= |s| && AllSpace(s[n..])
    ensures n > 0 ==> !IsSpace(s[n - 1])
  {
    if s != [] && IsSpace(s[|s| - 1]) then
      var m := ContentEnd(s[..|s| - 1]);
      assert forall k :: 0 <= k < |s| - 1 - m ==> s[m..][k] == s[..|s| - 1][m..][k];
      m
    else |s|
  }

  /** `s.strip()`: `s` with whitespace removed at both ends and nowhere else. */
  function Strip(s: String): String {
    var t := s[LeadingSpace(s)..];
    t[..ContentEnd(t)]
  }

  /** The strip of `s` is the slice of `s` that starts after its leading
      whitespace. */
  lemma StripSlice(s: String)
    ensures var i := LeadingSpace(s);
            i + |Strip(s)| <= |s| && s[i..i + |Strip(s)|] == Strip(s)
  {
    var i := LeadingSpace(s);
    SliceOfSlice(s, i, ContentEnd(s[i..]));
  }

  /** Only whitespace follows the strip of `s`. */
  lemma StripFollowedBySpace(s: String)
    ensures LeadingSpace(s) + |Strip(s)| <= |s|
    ensures AllSpace(s[LeadingSpace(s) + |Strip(s)|..])
  {
    var i := LeadingSpace(s);
    var n := ContentEnd(s[i..]);
    SliceOfSlice(s, i, n);
    assert AllSpace(s[i..][n..]);
  }

  /** `s.strip()` is a slice of `s` with only whitespace around it. */
  lemma StripTrims(s: String)
    ensures var r := Strip(s);
            exists i :: 0 <= i <= |s| - |r| && s[i..i + |r|] == r
                        && AllSpace(s[..i]) && AllSpace(s[i + |r|..])
  {
    var i := LeadingSpace(s);
    StripSlice(s);
    StripFollowedBySpace(s);
    assert AllSpace(s[..i]);
  }

  lemma SliceOfSlice<T>(s: seq<T>, i: nat, n: nat)
    requires i + n <= |s|
    ensures s[i..][..n] == s[i..i + n] && s[i..][n..] == s[i + n..]
  {
  }

  /** `s.strip()` neither starts nor ends with whitespace. */
  lemma StripEnds(s: String)
    ensures var r := Strip(s);
            r != [] ==> !IsSpace(r[0]) && !IsSpace(r[|r| - 1])
  {
    var i := LeadingSpace(s);
    var t := s[i..];
    var n := ContentEnd(t);
    assert Strip(s) == t[..n];
    if n > 0 {
      assert !IsSpace(t[n - 1]) && t[..n][n - 1] == t[n - 1];
      assert !IsSpace(s[i]) && t[..n][0] == s[i];
    }
  }

  /** Text that neither starts nor ends with whitespace is its own strip. */
  lemma StripUnchanged(s: String)
    requires s != [] ==> !IsSpace(s[0]) && !IsSpace(s[|s| - 1])
    ensures Strip(s) == s
  {
    assert s[0..] == s;
    if s != [] {
      assert s[..|s|] == s;
    }
  }

  // ---------------------------------------------------------------------
  // Occurrences, str.split(sep) and sep.join(parts)

  /** `t` occurs in `s` starting at index `k`. */
  predicate OccursAt(s: String, t: String, k: int) {
    0 <= k && k + |t| <= |s| && s[k..k + |t|] == t
  }

  /** `t in s` */
  ghost predicate Contains(s: String, t: String) {
    exists k :: OccursAt(s, t, k)
  }

  /** `s.find(t, i)`: the leftmost occurrence of `t` in `s` at or after `i`. */
  function FindFrom(s: String, t: String, i: nat): (k: Option<nat>)
    requires |t| > 0 && i <= |s|
    ensures k.Some? ==> i <= k.value && OccursAt(s, t, k.value)
                        && forall j :: i <= j < k.value ==> !OccursAt(s, t, j)
    ensures k.None? ==> forall j :: i <= j ==> !OccursAt(s, t, j)
    decreases |s| - i
  {
    if i + |t| > |s| then None
    else if s[i..i + |t|] == t then Some(i)
    else FindFrom(s, t, i + 1)
  }

  /** `sep.join(parts)` */
  function Join(parts: seq<String>, sep: String): String {
    if |parts| == 0 then []
    else if |parts| == 1 then parts[0]
    else parts[0] + sep + Join(parts[1..], sep)
  }

  lemma ConcatAssoc<T>(a: seq<T>, b: seq<T>, c: seq<T>)
    ensures a + b + c == a + (b + c)
  {
  }

  /** Joining one more part at the end adds the separator and that part. */
  lemma {:induction false} JoinSnoc(parts: seq<String>, x: String, sep: String)
    requires |parts| >= 1
    ensures Join(parts + [x], sep) == Join(parts, sep) + sep + x
  {
    if |parts| == 1 {
      assert (parts + [x])[1..] == [x];
    } else {
      assert (parts + [x])[1..] == parts[1..] + [x];
      JoinSnoc(parts[1..], x, sep);
    }
  }

  /** The join of several parts ends with the separator and the last part. */
  lemma JoinLast(parts: seq<String>, sep: String)
    requires |parts| >= 2
    ensures Join(parts, sep) == Join(parts[..|parts| - 1], sep) + sep + parts[|parts| - 1]
  {
    assert parts[..|parts| - 1] + [parts[|parts| - 1]] == parts;
    JoinSnoc(parts[..|parts| - 1], parts[|parts| - 1], sep);
  }

  /** No occurrence of `t` in the prefix `s[..k]` when none starts before `k` in `s`. */
  lemma PrefixAvoids(s: String, t: String, k: nat)
    requires |t| > 0 && k <= |s|
    requires forall j :: 0 <= j < k ==> !OccursAt(s, t, j)
    ensures !Contains(s[..k], t)
  {
    forall j | OccursAt(s[..k], t, j)
      ensures false
    {
      assert s[..k][j..j + |t|] == s[j..j + |t|];
      assert OccursAt(s, t, j);
    }
  }

  /** `s.split(sep)` for a non-empty separator: cuts `s` at each leftmost
      non-overlapping occurrence of `sep`, scanning from the left. */
  function Split(s: String, sep: String): (parts: seq<String>)
    requires |sep| > 0
    ensures |parts| >= 1
    decreases |s|
  {
    match FindFrom(s, sep, 0)
    case None => [s]
    case Some(k) => [s[..k]] + Split(s[k + |sep|..], sep)
  }

  /** Joining the parts with `sep` gives `s` back; no part contains `sep`,
      nothing before the end of the first part starts one, and there is
      more than one part exactly when `sep` occurs in `s`. */
  lemma {:induction false} SplitParts(s: String, sep: String)
    requires |sep| > 0
    ensures Join(Split(s, sep), sep) == s
    ensures forall i :: 0 <= i < |Split(s, sep)| ==> !Contains(Split(s, sep)[i], sep)
    ensures forall j :: 0 <= j < |Split(s, sep)[0]| ==> !OccursAt(s, sep, j)
    ensures |Split(s, sep)| > 1 <==> Contains(s, sep)
    decreases |s|
  {
    match FindFrom(s, sep, 0)
    case None =>
      assert s[..|s|] == s;
      PrefixAvoids(s, sep, |s|);
    case Some(k) =>
      var rest := Split(s[k + |sep|..], sep);
      SplitParts(s[k + |sep|..], sep);
      var parts := Split(s, sep);
      assert parts == [s[..k]] + rest;
      PrefixAvoids(s, sep, k);
      assert parts[1..] == rest;
      assert s == s[..k] + sep + s[k + |sep|..] by {
        assert s[k..k + |sep|] == sep;
        assert s == s[..k] + s[k..k + |sep|] + s[k + |sep|..];
      }
      assert OccursAt(s, sep, k);
  }

  /** An occurrence that starts inside `b` is an occurrence in `b`. */
  lemma OccursInSuffix(a: String, b: String, t: String, k: int)
    ensures OccursAt(a + b, t, k) && k >= |a| ==> OccursAt(b, t, k - |a|)
  {
    if OccursAt(a + b, t, k) && k >= |a| {
      assert b[k - |a|..k - |a| + |t|] == (a + b)[k..k + |t|];
    }
  }

  /** Each character of an occurrence sits at its offset from the start. */
  lemma OccursAtIndex(s: String, t: String, k: int, i: int)
    ensures OccursAt(s, t, k) && 0 <= i < |t| ==> s[k + i] == t[i]
  {
    if OccursAt(s, t, k) && 0 <= i < |t| {
      assert s[k..k + |t|][i] == s[k + i];
    }
  }

  /** A needle with a character that `s` lacks does not occur in `s`. */
  lemma MissingChar(s: String, t: String, i: int)
    requires 0 <= i < |t| && t[i] !in s
    ensures !Contains(s, t)
  {
    forall k ensures !OccursAt(s, t, k) {
      OccursAtIndex(s, t, k, i);
    }
  }

  /** Cutting at a separator that cannot start inside `a` (its first
      character, or its distinct second character, is not in `a`) gives `a`
      as the first part and the parts of the rest after it. */
  lemma SplitAtSep(a: String, sep: String, b: String)
    requires |sep| > 0
    requires sep[0] !in a || (|sep| >= 2 && sep[1] != sep[0] && sep[1] !in a)
    ensures Split(a + sep + b, sep) == [a] + Split(b, sep)
  {
    var s := a + sep + b;
    assert s[|a|..|a| + |sep|] == sep;
    assert OccursAt(s, sep, |a|);
    match FindFrom(s, sep, 0)
    case None =>
      assert false;
    case Some(k) =>
      OccursAtIndex(s, sep, k, 0);
      OccursAtIndex(s, sep, k, 1);
      assert k == |a|;
      assert s[..k] == a && s[k + |sep|..] == b;
  }

  /** Text without the separator is a single part. */
  lemma SplitWithout(s: String, sep: String)
    requires |sep| > 0 && !Contains(s, sep)
    ensures Split(s, sep) == [s]
  {
    match FindFrom(s, sep, 0)
    case None =>
    case Some(k) =>
      assert false;
  }

  /** Python's `in` for a one-character needle agrees with sequence membership. */
  lemma ContainsChar(s: String, c: char)
    ensures Contains(s, [c]) <==> c in s
  {
    if c in s {
      var k :| 0 <= k < |s| && s[k] == c;
      assert OccursAt(s, [c], k);
    }
    if Contains(s, [c]) {
      var k :| OccursAt(s, [c], k);
      assert s[k] == s[k..k + 1][0];
    }
  }

  /** The first part of a split is the text before the first separator. */
  lemma SplitFirst(s: String, sep: String)
    requires |sep| > 0
    ensures var parts := Split(s, sep);
            && parts[0] == s[..|parts[0]|]
            && (forall j :: 0 <= j < |parts[0]| ==> !OccursAt(s, sep, j))
            && (|parts| == 1 ==> parts[0] == s)
            && (|parts| > 1 ==> OccursAt(s, sep, |parts[0]|)
                                && s == parts[0] + sep + Join(parts[1..], sep))
  {
    SplitParts(s, sep);
    var parts := Split(s, sep);
    if |parts| > 1 {
      var p := parts[0];
      var tail := Join(parts[1..], sep);
      assert s == p + sep + tail;
      ThreePieces(p, sep, tail);
    } else {
      assert s[..|s|] == s;
    }
  }

  /** The pieces of `a + b + c` sit where their lengths put them. */
  lemma ThreePieces(a: String, b: String, c: String)
    ensures (a + b + c)[..|a|] == a
    ensures (a + b + c)[|a| + |b|..] == c
    ensures OccursAt(a + b + c, b, |a|)
  {
    var s := a + b + c;
    assert s[|a|..|a| + |b|] == b;
  }

  /** The last part of a split is a suffix without the separator, right
      after an occurrence of it when there are several parts. (For a
      separator that cannot overlap itself, such as ", ", that is the text
      after the last occurrence.) */
  lemma SplitLast(s: String, sep: String)
    requires |sep| > 0
    ensures var parts := Split(s, sep);
            var last := parts[|parts| - 1];
            && |last| <= |s| && last == s[|s| - |last|..]
            && !Contains(last, sep)
            && (|parts| == 1 ==> last == s)
            && (|parts| > 1 ==> |last| + |sep| <= |s| && OccursAt(s, sep, |s| - |last| - |sep|))
  {
    SplitParts(s, sep);
    var parts := Split(s, sep);
    var n := |parts|;
    var last := parts[n - 1];
    assert !Contains(last, sep);
    if n > 1 {
      JoinLast(parts, sep);
      ThreePieces(Join(parts[..n - 1], sep), sep, last);
    } else {
      assert s[0..] == s;
    }
  }


  // ---------------------------------------------------------------------
  // str.split() with no separator, and ' '.join(s.split())

  /** The length of the run of non-whitespace characters at the start of `s`. */
  function WordEnd(s: String): (n: nat)
    ensures n <= |s| && NoSpace(s[..n])
    ensures n < |s| ==> IsSpace(s[n])
  {
    if s == [] || IsSpace(s[0]) then 0
    else
      var m := WordEnd(s[1..]);
      m + 1
  }

  /** `s.split()`: the maximal runs of non-whitespace characters, in order. */
  function Words(s: String): seq<String>
    decreases |s|
  {
    var start := LeadingSpace(s);
    if start == |s| then []
    else
      var t := s[start..];
      var n := WordEnd(t);
      assert t[0] == s[start];
      [t[..n]] + Words(t[n..])
  }

  /** Every element of `s.split()` is a word, and there is none exactly
      when `s` is all whitespace. */
  lemma {:induction false} WordsAreWords(s: String)
    ensures forall i :: 0 <= i < |Words(s)| ==> IsWord(Words(s)[i])
    ensures Words(s) == [] <==> AllSpace(s)
    decreases |s|
  {
    var start := LeadingSpace(s);
    if start == |s| {
      assert s[..|s|] == s;
    } else {
      var t := s[start..];
      var n := WordEnd(t);
      var w, rest := t[..n], t[n..];
      assert !IsSpace(s[start]) && t[0] == s[start];
      assert IsWord(w);
      WordsAreWords(rest);
      var ws := Words(s);
      assert ws == [w] + Words(rest);
      forall i | 0 <= i < |ws| ensures IsWord(ws[i]) {
        if i > 0 {
          assert ws[i] == Words(rest)[i - 1];
        }
      }
    }
  }

  /** `' '.join(s.split())`: the words of `s` separated by single spaces. */
  function Collapse(s: String): String {
    Join(Words(s), " ")
  }

  /** A word followed by whitespace or the end is exactly its own run. */
  lemma {:induction false} WordEndOf(w: String, rest: String)
    requires NoSpace(w) && (rest == [] || IsSpace(rest[0]))
    ensures WordEnd(w + rest) == |w|
  {
    if w == [] {
      assert w + rest == rest;
    } else {
      assert (w + rest)[0] == w[0] && (w + rest)[1..] == w[1..] + rest;
      WordEndOf(w[1..], rest);
    }
  }

  /** Whitespace in front does not change the words. */
  lemma WordsAfterSpace(c: char, s: String)
    requires IsSpace(c)
    ensures Words([c] + s) == Words(s)
  {
    var t := [c] + s;
    assert t[1..] == s;
    assert t[1 + LeadingSpace(s)..] == s[LeadingSpace(s)..];
  }

  /** A word followed by whitespace or the end is the first of the words. */
  lemma WordsOfWordThen(w: String, rest: String)
    requires IsWord(w) && (rest == [] || IsSpace(rest[0]))
    ensures Words(w + rest) == [w] + Words(rest)
  {
    var t := w + rest;
    assert t[0] == w[0];
    assert t[0..] == t;
    WordEndOf(w, rest);
    assert t[..|w|] == w && t[|w|..] == rest;
  }

  /** A word, a space and more text: the word, then the words of the text. */
  lemma WordsAfterWord(w: String, rest: String)
    requires IsWord(w)
    ensures Words(w + " " + rest) == [w] + Words(rest)
  {
    WordsAfterSpace(' ', rest);
    WordsOfWordThen(w, " " + rest);
    assert w + " " + rest == w + (" " + rest);
  }

  /** `' '.join(words).split() == words` for words without whitespace. */
  lemma {:induction false} WordsJoin(ws: seq<String>)
    requires forall i :: 0 <= i < |ws| ==> IsWord(ws[i])
    ensures Words(Join(ws, " ")) == ws
  {
    if |ws| == 1 {
      WordsOfWordThen(ws[0], []);
      assert ws[0] + [] == ws[0];
    } else if |ws| > 1 {
      var tail := ws[1..];
      assert forall i :: 0 <= i < |tail| ==> IsWord(tail[i]) by {
        forall i | 0 <= i < |tail| ensures IsWord(tail[i]) {
          assert tail[i] == ws[i + 1];
        }
      }
      WordsJoin(tail);
      WordsAfterWord(ws[0], Join(tail, " "));
      assert [ws[0]] + tail == ws;
    }
  }

  /** Collapsing whitespace twice is collapsing it once. */
  lemma CollapseIdempotent(s: String)
    ensures Collapse(Collapse(s)) == Collapse(s)
  {
    WordsAreWords(s);
    WordsJoin(Words(s));
  }

  // ---------------------------------------------------------------------
  // filter(p, s)

  /** `filter(p, s)`: the elements of `s` that satisfy `p`, in their order. */
  function Filter<T>(p: T -> bool, s: seq<T>): seq<T> {
    if s == [] then []
    else if p(s[0]) then [s[0]] + Filter(p, s[1..])
    else Filter(p, s[1..])
  }

  /** `filter` keeps exactly the elements that satisfy `p`, and no more of
      them than there were. */
  lemma {:induction false} FilterMembers<T>(p: T -> bool, s: seq<T>)
    ensures |Filter(p, s)| <= |s|
    ensures forall k :: 0 <= k < |Filter(p, s)| ==> p(Filter(p, s)[k]) && Filter(p, s)[k] in s
    ensures forall k :: 0 <= k < |s| && p(s[k]) ==> s[k] in Filter(p, s)
  {
    if s != [] {
      FilterMembers(p, s[1..]);
    }
  }

  /** Filtering distributes over concatenation, so it keeps relative order. */
  lemma {:induction false} FilterAppend<T>(p: T -> bool, a: seq<T>, b: seq<T>)
    ensures Filter(p, a + b) == Filter(p, a) + Filter(p, b)
  {
    if a != [] {
      assert (a + b)[0] == a[0] && (a + b)[1..] == a[1..] + b;
      FilterAppend(p, a[1..], b);
      if p(a[0]) {
        calc {
          Filter(p, a + b);
          [a[0]] + Filter(p, a[1..] + b);
          [a[0]] + (Filter(p, a[1..]) + Filter(p, b));
          ([a[0]] + Filter(p, a[1..])) + Filter(p, b);
        }
      }
    } else {
      assert a + b == b;
    }
  }

  /** A filter whose predicate holds everywhere changes nothing. */
  lemma {:induction false} FilterAll<T>(p: T -> bool, s: seq<T>)
    requires forall k :: 0 <= k < |s| ==> p(s[k])
    ensures Filter(p, s) == s
  {
    if s != [] {
      FilterAll(p, s[1..]);
    }
  }

  /** A filter whose predicate holds nowhere keeps nothing. */
  lemma {:induction false} FilterNone<T>(p: T -> bool, s: seq<T>)
    requires forall k :: 0 <= k < |s| ==> !p(s[k])
    ensures Filter(p, s) == []
  {
    if s != [] {
      FilterNone(p, s[1..]);
    }
  }

  // ---------------------------------------------------------------------
  // Decimal digits, int(...) and str(n)

  /** `str.isdigit` restricted to the ASCII digits. */
  predicate IsDigit(c: char) {
    '0' <= c <= '9'
  }

  predicate AllDigits(s: String) {
    forall k :: 0 <= k < |s| ==> IsDigit(s[k])
  }

  /** Digits are neither whitespace nor punctuation. */
  lemma DigitsAvoid(s: String)
    requires AllDigits(s)
    ensures NoSpace(s) && '/' !in s && '|' !in s
  {
    forall i | 0 <= i < |s| ensures !IsSpace(s[i]) && s[i] != '/' && s[i] != '|' {
      assert IsDigit(s[i]);
    }
  }

  /** The value of a string of decimal digits, most significant first. */
  function DecimalValue(s: String): nat
    requires AllDigits(s)
  {
    if s == [] then 0
    else 10 * DecimalValue(s[..|s| - 1]) + (s[|s| - 1] as int - '0' as int)
  }

  function Pow10(k: nat): nat {
    if k == 0 then 1 else 10 * Pow10(k - 1)
  }

  /** Reading digits after digits: the left part's value is shifted by the
      length of the right part. */
  lemma {:induction false} DecimalValueAppend(a: String, b: String)
    requires AllDigits(a) && AllDigits(b)
    ensures AllDigits(a + b)
    ensures DecimalValue(a + b) == DecimalValue(a) * Pow10(|b|) + DecimalValue(b)
  {
    if b == [] {
      assert a + b == a;
    } else {
      var b' := b[..|b| - 1];
      var last := b[|b| - 1] as int - '0' as int;
      assert (a + b)[..|a + b| - 1] == a + b';
      assert (a + b)[|a + b| - 1] == b[|b| - 1];
      DecimalValueAppend(a, b');
      ShiftDigit(DecimalValue(a), Pow10(|b'|), DecimalValue(b'), last);
    }
  }

  /** Appending a digit multiplies the shift by ten. */
  lemma ShiftDigit(high: int, shift: int, low: int, digit: int)
    ensures 10 * (high * shift + low) + digit == high * (10 * shift) + (10 * low + digit)
  {
  }

  /** `str(n)` for a natural number: its decimal digits without leading zeros. */
  function DecimalString(n: nat): (s: String)
    ensures |s| >= 1 && AllDigits(s)
    ensures DecimalValue(s) == n
    ensures |s| > 1 ==> s[0] != '0'
  {
    var d := ['0' + (n % 10) as char];
    if n < 10 then d
    else
      var s := DecimalString(n / 10) + d;
      assert s[..|s| - 1] == DecimalString(n / 10);
      s
  }

  /** `int(s)`, accepting exactly the non-empty strings of ASCII digits;
      anything else raises `ValueError`. */
  function ParseInt(s: String): (r: Result<nat>)
    ensures r.Success? <==> s != [] && AllDigits(s)
    ensures r.Failure? ==> r.error == ValueError(s)
  {
    if s != [] && AllDigits(s) then Success(DecimalValue(s)) else Failure(ValueError(s))
  }

  /** `int(str(n)) == n` */
  lemma ParseDecimalString(n: nat)
    ensures ParseInt(DecimalString(n)) == Success(n)
  {
  }

  /** `str` is injective on natural numbers. */
  lemma DecimalStringInjective(m: nat, n: nat)
    requires DecimalString(m) == DecimalString(n)
    ensures m == n
  {
    ParseDecimalString(m);
    ParseDecimalString(n);
  }
}
