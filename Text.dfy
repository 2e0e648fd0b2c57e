/** The parts of Rust's `str` API that the solvers use, on strings of ASCII characters:
    `split`, `split_once`, `strip_prefix`, `lines`, `split_whitespace`, `trim` and the
    `FromStr` parsers of the integer types. */
module Text {
  import opened Wrappers

  type String = seq<char>

  // Integer ranges of the Rust types that the solvers parse or compute in.
  const U32_LIMIT: int := 0x1_0000_0000
  const U64_LIMIT: int := 0x1_0000_0000_0000_0000
  const USIZE_LIMIT: int := U64_LIMIT
  const I32_MIN: int := -0x8000_0000
  const I32_LIMIT: int := 0x8000_0000
  const I64_MIN: int := -0x8000_0000_0000_0000
  const I64_LIMIT: int := 0x8000_0000_0000_0000

  predicate IsDigit(c: char) { '0' <= c <= '9' }

  function DigitValue(c: char): (d: nat)
    requires IsDigit(c)
    ensures d < 10
  {
    c as int - '0' as int
  }

  /** ASCII white space as `char::is_whitespace` sees it: space, and tab to carriage return. */
  predicate IsWhitespace(c: char) { c == ' ' || '\t' <= c <= '\r' }

  predicate AllDigits(s: String) { forall i :: 0 <= i < |s| ==> IsDigit(s[i]) }

  /** The value of a string of decimal digits, most significant first. */
  function DecimalValue(digits: String): nat
    requires AllDigits(digits)
  {
    if digits == [] then 0
    else 10 * DecimalValue(digits[..|digits| - 1]) + DigitValue(digits[|digits| - 1])
  }

  /** The decimal representation of `n`, as `to_string` writes it. */
  function Decimal(n: nat): (s: String)
    ensures |s| > 0 && AllDigits(s)
  {
    if n < 10 then [('0' as int + n) as char] else Decimal(n / 10) + [('0' as int + n % 10) as char]
  }

  lemma {:induction false} DecimalRoundTrip(n: nat)
    ensures DecimalValue(Decimal(n)) == n
  {
    if n >= 10 {
      DecimalRoundTrip(n / 10);
      var s := Decimal(n);
      assert s[..|s| - 1] == Decimal(n / 10);
    }
  }

  /** `n.to_string().len()`. */
  function DecimalLength(n: nat): (len: nat)
    ensures len == |Decimal(n)|
    ensures len >= 1
  {
    if n < 10 then 1 else DecimalLength(n / 10) + 1
  }

  // ---------------------------------------------------------------------------------------
  // Searching and splitting

  predicate OccursAt(s: String, sep: String, i: int)
  {
    0 <= i && i + |sep| <= |s| && s[i..i + |sep|] == sep
  }

  predicate Occurs(s: String, sep: String)
  {
    exists i :: 0 <= i <= |s| && OccursAt(s, sep, i)
  }

  /** The leftmost occurrence of `sep` in `s` at or after `from`. */
  function FindFrom(s: String, sep: String, from: nat): (r: Option<nat>)
    requires |sep| > 0
    ensures r.Some? ==> from <= r.value && OccursAt(s, sep, r.value)
    ensures r.Some? ==> forall j :: from <= j < r.value ==> !OccursAt(s, sep, j)
    ensures r.None? ==> forall j :: from <= j ==> !OccursAt(s, sep, j)
    decreases |s| - from
  {
    if from + |sep| > |s| then None
    else if s[from..from + |sep|] == sep then Some(from)
    else FindFrom(s, sep, from + 1)
  }

  /** `s.find(sep)`: the leftmost occurrence of `sep`. */
  function Find(s: String, sep: String): (r: Option<nat>)
    requires |sep| > 0
    ensures r.Some? ==> OccursAt(s, sep, r.value) && forall j :: 0 <= j < r.value ==> !OccursAt(s, sep, j)
    ensures r.None? ==> !Occurs(s, sep)
  {
    FindFrom(s, sep, 0)
  }

  /** Joins the parts with `sep` between consecutive parts. */
  function Join(parts: seq<String>, sep: String): String
  {
    if parts == [] then []
    else if |parts| == 1 then parts[0]
    else parts[0] + sep + Join(parts[1..], sep)
  }

  /** Three parts joined. */
  lemma JoinThree(a: String, b: String, c: String, sep: String)
    ensures Join([a, b, c], sep) == a + sep + b + sep + c
  {
    assert Join([c], sep) == c;
    assert [b, c][1..] == [c];
    assert [a, b, c][1..] == [b, c];
  }

  /** Four parts joined. */
  lemma JoinFour(a: String, b: String, c: String, d: String, sep: String)
    ensures Join([a, b, c, d], sep) == a + sep + b + sep + c + sep + d
  {
    assert Join([d], sep) == d;
    assert [c, d][1..] == [d];
    assert Join([c, d], sep) == c + sep + d;
    assert [b, c, d][1..] == [c, d];
    assert Join([b, c, d], sep) == b + sep + c + sep + d;
    assert [a, b, c, d][1..] == [b, c, d];
  }

  /** `s.split(sep)` for a non-empty separator: the pieces between the leftmost
      non-overlapping occurrences of `sep`. There is always at least one piece. */
  function Split(s: String, sep: String): (parts: seq<String>)
    requires |sep| > 0
    ensures |parts| >= 1
    ensures Join(parts, sep) == s
    ensures forall k :: 0 <= k < |parts| ==> !Occurs(parts[k], sep)
    decreases |s|
  {
    match Find(s, sep)
    case None => [s]
    case Some(i) =>
      var head := s[..i];
      assert !Occurs(head, sep) by {
        forall j | 0 <= j <= |head| ensures !OccursAt(head, sep, j) {
          if j + |sep| <= |head| {
            assert head[j..j + |sep|] == s[j..j + |sep|];
            assert !OccursAt(s, sep, j);
          }
        }
      }
      var rest := Split(s[i + |sep|..], sep);
      assert s == head + sep + s[i + |sep|..];
      [head] + rest
  }

  /** `s.split_once(sep)`: the text before and after the leftmost occurrence of `sep`. */
  function SplitOnce(s: String, sep: String): (r: Option<(String, String)>)
    requires |sep| > 0
    ensures r.Some? ==> r.value.0 + sep + r.value.1 == s && !Occurs(r.value.0, sep)
    ensures r.None? <==> !Occurs(s, sep)
  {
    match Find(s, sep)
    case None => None
    case Some(i) =>
      var head := s[..i];
      assert !Occurs(head, sep) by {
        forall j | 0 <= j <= |head| ensures !OccursAt(head, sep, j) {
          if j + |sep| <= |head| {
            assert head[j..j + |sep|] == s[j..j + |sep|];
            assert !OccursAt(s, sep, j);
          }
        }
      }
      assert s == head + sep + s[i + |sep|..];
      Some((head, s[i + |sep|..]))
  }

  /** A string without the separator's first character holds no occurrence of it. */
  lemma NoOccurrence(s: String, sep: String)
    requires |sep| > 0 && sep[0] !in s
    ensures !Occurs(s, sep)
  {
    forall j | 0 <= j <= |s| ensures !OccursAt(s, sep, j) {
      if j + |sep| <= |s| {
        assert s[j..j + |sep|][0] == s[j];
      }
    }
  }

  /** A text without the separator splits into itself alone. */
  lemma SplitNone(s: String, sep: String)
    requires |sep| > 0 && !Occurs(s, sep)
    ensures Split(s, sep) == [s]
  {
    match Find(s, sep)
    case None =>
    case Some(i) =>
      assert false;
  }

  /** The separator is first found right after a prefix that lacks its first character. */
  lemma FindAfter(pre: String, sep: String, post: String)
    requires |sep| > 0 && sep[0] !in pre
    ensures Find(pre + sep + post, sep) == Some(|pre|)
    ensures SplitOnce(pre + sep + post, sep) == Some((pre, post))
  {
    var s := pre + sep + post;
    assert OccursAt(s, sep, |pre|) by {
      assert s[|pre|..|pre| + |sep|] == sep;
    }
    forall j | 0 <= j < |pre| ensures !OccursAt(s, sep, j) {
      if j + |sep| <= |s| {
        assert s[j..j + |sep|][0] == pre[j];
      }
    }
    assert s[..|pre|] == pre && s[|pre| + |sep|..] == post;
  }

  /** Splitting joined parts gives the parts back when none holds the separator's first character. */
  lemma {:induction false} SplitJoin(parts: seq<String>, sep: String)
    requires |sep| > 0 && |parts| > 0
    requires forall k :: 0 <= k < |parts| ==> sep[0] !in parts[k]
    ensures Split(Join(parts, sep), sep) == parts
    decreases |parts|
  {
    if |parts| == 1 {
      NoOccurrence(parts[0], sep);
    } else {
      SplitAfter(parts[0], sep, Join(parts[1..], sep));
      SplitJoin(parts[1..], sep);
      assert parts == [parts[0]] + parts[1..];
    }
  }

  /** A character that is in no part and not in the separator is not in the joined text. */
  lemma {:induction false} NotInJoin(parts: seq<String>, sep: String, c: char)
    requires c !in sep
    requires forall k :: 0 <= k < |parts| ==> c !in parts[k]
    ensures c !in Join(parts, sep)
    decreases |parts|
  {
    if |parts| > 1 {
      NotInJoin(parts[1..], sep, c);
    }
  }

  /** Splitting at the first occurrence, right after a prefix that lacks the separator's first character. */
  lemma SplitAfter(pre: String, sep: String, post: String)
    requires |sep| > 0 && sep[0] !in pre
    ensures Split(pre + sep + post, sep) == [pre] + Split(post, sep)
  {
    var s := pre + sep + post;
    FindAfter(pre, sep, post);
    assert s[..|pre|] == pre && s[|pre| + |sep|..] == post;
  }

  /** The separator is first found right after a prefix that lacks its second character,
      when its first two characters differ. */
  lemma FindAfterSecond(pre: String, sep: String, post: String)
    requires |sep| >= 2 && sep[1] != sep[0] && sep[1] !in pre
    ensures SplitOnce(pre + sep + post, sep) == Some((pre, post))
  {
    var s := pre + sep + post;
    assert OccursAt(s, sep, |pre|) by {
      assert s[|pre|..|pre| + |sep|] == sep;
    }
    forall j | 0 <= j < |pre| ensures !OccursAt(s, sep, j) {
      if j + |sep| <= |s| {
        assert s[j..j + |sep|][1] == s[j + 1];
        if j + 1 == |pre| {
          assert s[j + 1] == sep[0];
        } else {
          assert s[j + 1] == pre[j + 1];
        }
      }
    }
    assert s[..|pre|] == pre && s[|pre| + |sep|..] == post;
  }

  /** `s.strip_prefix(p)`. */
  function StripPrefix(s: String, p: String): (r: Option<String>)
    ensures r.Some? <==> |p| <= |s| && s[..|p|] == p
    ensures r.Some? ==> p + r.value == s
  {
    if |p| <= |s| && s[..|p|] == p then Some(s[|p|..]) else None
  }

  /** `s.strip_suffix(p)`. */
  function StripSuffix(s: String, p: String): (r: Option<String>)
    ensures r.Some? <==> |p| <= |s| && s[|s| - |p|..] == p
    ensures r.Some? ==> r.value + p == s
  {
    if |p| <= |s| && s[|s| - |p|..] == p then Some(s[..|s| - |p|]) else None
  }

  /** `s.lines()`: the pieces between line feeds, without a final empty piece after a
      trailing line feed, each with one trailing carriage return removed. */
  function Lines(s: String): (lines: seq<String>)
    ensures s == [] ==> lines == []
    ensures forall k :: 0 <= k < |lines| ==> '\n' !in lines[k]
  {
    var parts := Split(s, "\n");
    var kept := if parts[|parts| - 1] == [] then parts[..|parts| - 1] else parts;
    assert forall k :: 0 <= k < |kept| ==> '\n' !in kept[k] by {
      forall k | 0 <= k < |kept| ensures '\n' !in kept[k] {
        forall j | 0 <= j < |parts[k]| ensures parts[k][j] != '\n' {
          assert !OccursAt(parts[k], "\n", j);
          assert parts[k][j..j + 1] == [parts[k][j]];
        }
      }
    }
    seq(|kept|, k requires 0 <= k < |kept| => StripCarriageReturn(kept[k]))
  }

  /** Lines joined with line feeds come back from `Lines` when none holds a line feed or
      ends in a carriage return and the last is not empty. */
  lemma LinesJoin(lines: seq<String>)
    requires |lines| > 0 && lines[|lines| - 1] != []
    requires forall k :: 0 <= k < |lines| ==> '\n' !in lines[k]
    requires forall k :: 0 <= k < |lines| ==> StripCarriageReturn(lines[k]) == lines[k]
    ensures Lines(Join(lines, "\n")) == lines
  {
    SplitJoin(lines, "\n");
  }

  function StripCarriageReturn(line: String): (r: String)
    ensures r <= line
  {
    if |line| > 0 && line[|line| - 1] == '\r' then line[..|line| - 1] else line
  }

  /** The length of the run of non-white-space characters at the start of `s`. */
  function WordLength(s: String): (n: nat)
    ensures n <= |s|
    ensures forall i :: 0 <= i < n ==> !IsWhitespace(s[i])
    ensures n < |s| ==> IsWhitespace(s[n])
  {
    if s == [] || IsWhitespace(s[0]) then 0 else 1 + WordLength(s[1..])
  }

  /** `s.split_whitespace()`: the maximal runs of non-white-space characters. */
  function SplitWhitespace(s: String): (words: seq<String>)
    ensures forall k :: 0 <= k < |words| ==> |words[k]| > 0
    ensures forall k, i :: 0 <= k < |words| && 0 <= i < |words[k]| ==> !IsWhitespace(words[k][i])
    decreases |s|
  {
    if s == [] then []
    else if IsWhitespace(s[0]) then SplitWhitespace(s[1..])
    else
      var n := WordLength(s);
      [s[..n]] + SplitWhitespace(s[n..])
  }

  /** A word followed by nothing or by white space is measured exactly. */
  lemma {:induction false} WordLengthOf(w: String, rest: String)
    requires |w| > 0 && forall i :: 0 <= i < |w| ==> !IsWhitespace(w[i])
    requires rest == [] || IsWhitespace(rest[0])
    ensures WordLength(w + rest) == |w|
    decreases |w|
  {
    if |w| > 1 {
      assert (w + rest)[1..] == w[1..] + rest;
      WordLengthOf(w[1..], rest);
    } else {
      assert (w + rest)[1..] == rest;
    }
  }

  /** Words joined by single spaces split back into the same words. */
  lemma {:induction false} SplitWhitespaceJoin(words: seq<String>)
    requires forall k :: 0 <= k < |words| ==> |words[k]| > 0
    requires forall k, i :: 0 <= k < |words| && 0 <= i < |words[k]| ==> !IsWhitespace(words[k][i])
    ensures SplitWhitespace(Join(words, " ")) == words
    decreases |words|
  {
    if |words| == 1 {
      var w := words[0];
      WordLengthOf(w, []);
      assert w + [] == w && w[..|w|] == w && w[|w|..] == [];
    } else if |words| > 1 {
      var w := words[0];
      var rest := Join(words[1..], " ");
      var s := w + " " + rest;
      assert s == w + (" " + rest);
      WordLengthOf(w, " " + rest);
      assert s[..|w|] == w && s[|w|..] == " " + rest;
      assert (" " + rest)[1..] == rest;
      SplitWhitespaceJoin(words[1..]);
      assert words == [w] + words[1..];
    }
  }

  function TrimStart(s: String): (r: String)
    ensures r == [] || !IsWhitespace(r[0])
    ensures |r| <= |s| && r == s[|s| - |r|..]
  {
    if s != [] && IsWhitespace(s[0]) then TrimStart(s[1..]) else s
  }

  function TrimEnd(s: String): (r: String)
    ensures r == [] || !IsWhitespace(r[|r| - 1])
    ensures r <= s
  {
    if s != [] && IsWhitespace(s[|s| - 1]) then TrimEnd(s[..|s| - 1]) else s
  }

  /** `s.trim()`. */
  function Trim(s: String): (r: String)
    ensures r == [] || (!IsWhitespace(r[0]) && !IsWhitespace(r[|r| - 1]))
  {
    TrimEnd(TrimStart(s))
  }

  // ---------------------------------------------------------------------------------------
  // Integer parsing

  /** Leading spaces are dropped by `trim_start`. */
  lemma {:induction false} TrimStartPadded(pad: String, s: String)
    requires forall i :: 0 <= i < |pad| ==> pad[i] == ' '
    requires s == [] || !IsWhitespace(s[0])
    ensures TrimStart(pad + s) == s
    decreases |pad|
  {
    if pad == [] {
      assert pad + s == s;
    } else {
      assert (pad + s)[1..] == pad[1..] + s;
      TrimStartPadded(pad[1..], s);
    }
  }

  /** Leading spaces are dropped by `trim`, and a text without white space at either end is kept. */
  lemma TrimPadded(pad: String, s: String)
    requires forall i :: 0 <= i < |pad| ==> pad[i] == ' '
    requires s != [] && !IsWhitespace(s[0]) && !IsWhitespace(s[|s| - 1])
    ensures Trim(pad + s) == s
  {
    TrimStartPadded(pad, s);
    assert TrimEnd(s) == s;
  }

  /** The `FromStr` parser of an unsigned integer type whose values are below `limit`:
      an optional '+', then one or more decimal digits, with overflow an error. */
  function ParseUnsigned(s: String, limit: nat): (r: Option<nat>)
    ensures r.Some? ==> r.value < limit
    ensures r.Some? <==> exists digits :: (s == digits || s == "+" + digits) && |digits| > 0
                          && AllDigits(digits) && DecimalValue(digits) < limit
  {
    var digits := if |s| > 0 && s[0] == '+' then s[1..] else s;
    assert s == "+" + digits || s == digits;
    if |digits| > 0 && AllDigits(digits) && DecimalValue(digits) < limit then Some(DecimalValue(digits))
    else None
  }

  /** The `FromStr` parser of a signed integer type whose values lie in [`low`, `limit`):
      an optional '+' or '-', then one or more decimal digits, with overflow an error. */
  function ParseSigned(s: String, low: int, limit: int): (r: Option<int>)
    requires low <= 0 < limit
    ensures r.Some? ==> low <= r.value < limit
    ensures |s| > 0 && s[0] == '-' ==> r == (if |s| > 1 && AllDigits(s[1..]) && low <= -(DecimalValue(s[1..]) as int) then Some(-(DecimalValue(s[1..]) as int)) else None)
  {
    if |s| > 0 && s[0] == '-' then
      var digits := s[1..];
      if |digits| > 0 && AllDigits(digits) && low <= -(DecimalValue(digits) as int) then Some(-(DecimalValue(digits) as int)) else None
    else
      match ParseUnsigned(s, limit)
      case Some(v) => if low <= v then Some(v) else None
      case None => None
  }

  lemma {:induction false} ParseDecimal(n: nat, limit: nat)
    requires n < limit
    ensures ParseUnsigned(Decimal(n), limit) == Some(n)
  {
    DecimalRoundTrip(n);
    assert Decimal(n)[0] != '+';
  }

  /** The decimal representation of an integer, with a leading '-' when it is negative. */
  function SignedDecimal(n: int): (s: String)
    ensures |s| > 0
  {
    if n < 0 then "-" + Decimal(-n) else Decimal(n)
  }

  /** Parsing the decimal representation of an integer in range gives it back. */
  lemma SignedDecimalRoundTrip(n: int, low: int, limit: int)
    requires low <= 0 < limit && low <= n < limit
    ensures ParseSigned(SignedDecimal(n), low, limit) == Some(n)
  {
    if n < 0 {
      DecimalRoundTrip(-n);
      assert SignedDecimal(n)[1..] == Decimal(-n);
    } else {
      ParseDecimal(n, limit);
    }
  }

  /** `items.map(parse).collect::<Result<Vec<_>, _>>()`: every item parsed, or `Err` when
      any of them fails. */
  function ParseEach<T>(parse: String -> Result<T>, items: seq<String>): (r: Result<seq<T>>)
    ensures r.Ok? ==> |r.value| == |items|
  {
    if items == [] then Ok([])
    else
      match ParseEach(parse, items[..|items| - 1])
      case Err => Err
      case Ok(init) =>
        match parse(items[|items| - 1])
        case Err => Err
        case Ok(last) => Ok(init + [last])
  }

  /** Parsing one more item extends the values parsed so far. */
  lemma ParseEachExtend<T>(parse: String -> Result<T>, items: seq<String>, i: nat, v: T)
    requires i < |items| && ParseEach(parse, items[..i]).Ok? && parse(items[i]) == Ok(v)
    ensures ParseEach(parse, items[..i + 1]) == Ok(ParseEach(parse, items[..i]).value + [v])
  {
    assert items[..i + 1][..i] == items[..i];
  }

  /** When every item parses, item `i` gives value `i`. */
  lemma {:induction false} ParseEachEntry<T>(parse: String -> Result<T>, items: seq<String>, i: nat)
    requires ParseEach(parse, items).Ok? && i < |items|
    ensures parse(items[i]) == Ok(ParseEach(parse, items).value[i])
    decreases |items|
  {
    var init := items[..|items| - 1];
    if i < |init| {
      ParseEachEntry(parse, init, i);
      assert init[i] == items[i];
    }
  }

  /** `ParseEachExtend` for a loop that skips the first item. */
  lemma ParseEachSkipStep<T>(parse: String -> Result<T>, items: seq<String>, ix: nat, v: T)
    requires 1 <= ix < |items| && ParseEach(parse, items[1..ix]).Ok? && parse(items[ix]) == Ok(v)
    ensures ParseEach(parse, items[1..ix + 1]) == Ok(ParseEach(parse, items[1..ix]).value + [v])
  {
    var rest := items[1..];
    assert rest[..ix - 1] == items[1..ix] && rest[..ix] == items[1..ix + 1];
    ParseEachExtend(parse, rest, ix - 1, v);
  }

  /** `ParseEachFails` for a loop that skips the first item. */
  lemma ParseEachSkipFails<T>(parse: String -> Result<T>, items: seq<String>, ix: nat)
    requires 1 <= ix < |items| && parse(items[ix]).Err?
    ensures ParseEach(parse, items[1..]).Err?
  {
    ParseEachFails(parse, items[1..], ix - 1);
  }

  /** One item that does not parse makes the whole collection fail. */
  lemma {:induction false} ParseEachFails<T>(parse: String -> Result<T>, items: seq<String>, i: nat)
    requires i < |items| && parse(items[i]).Err?
    ensures ParseEach(parse, items).Err?
    decreases |items|
  {
    var init := items[..|items| - 1];
    if i < |init| {
      assert init[i] == items[i];
      ParseEachFails(parse, init, i);
    }
  }

  /** When every item parses, the collection is the values in order. */
  lemma {:induction false} ParseEachAll<T>(parse: String -> Result<T>, items: seq<String>, values: seq<T>)
    requires |items| == |values|
    requires forall i :: 0 <= i < |items| ==> parse(items[i]) == Ok(values[i])
    ensures ParseEach(parse, items) == Ok(values)
    decreases |items|
  {
    if items != [] {
      var n := |items| - 1;
      ParseEachAll(parse, items[..n], values[..n]);
      assert values == values[..n] + [values[n]];
    }
  }

  /** The sum of `weight` over the lines that parse, skipping those that do not. */
  function SumParsed<T>(parse: String -> Result<T>, weight: T -> nat, lines: seq<String>): nat
  {
    if lines == [] then 0
    else
      var rest := SumParsed(parse, weight, lines[..|lines| - 1]);
      match parse(lines[|lines| - 1])
      case Ok(v) => rest + weight(v)
      case Err => rest
  }

  /** A heavier weight gives a larger sum. */
  lemma {:induction false} SumParsedMonotone<T(!new)>(parse: String -> Result<T>, light: T -> nat, heavy: T -> nat, lines: seq<String>)
    requires forall v :: light(v) <= heavy(v)
    ensures SumParsed(parse, light, lines) <= SumParsed(parse, heavy, lines)
  {
    if lines != [] {
      SumParsedMonotone(parse, light, heavy, lines[..|lines| - 1]);
      var last := parse(lines[|lines| - 1]);
      if last.Ok? {
        assert light(last.value) <= heavy(last.value);
      }
    }
  }

  lemma MulSuccessor(n: nat, b: nat)
    ensures (n + 1) * b == n * b + b
  {
  }

  /** When every parsed line weighs at most `bound`, the sum is at most `bound` per line. */
  lemma {:induction false} SumParsedBound<T>(parse: String -> Result<T>, weight: T -> nat, lines: seq<String>, bound: nat)
    requires forall k :: 0 <= k < |lines| ==> parse(lines[k]).Ok? ==> weight(parse(lines[k]).value) <= bound
    ensures SumParsed(parse, weight, lines) <= |lines| * bound
  {
    if lines != [] {
      var n := |lines| - 1;
      assert forall k :: 0 <= k < n ==> lines[..n][k] == lines[k];
      SumParsedBound(parse, weight, lines[..n], bound);
      MulSuccessor(n, bound);
    }
  }
}
