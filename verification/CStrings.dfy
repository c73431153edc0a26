/**
 Character buffers as C programs use them: text ends at the first terminator, numbers are written in
 decimal and read back into a 32-bit accumulator, and a tokenizer cuts the buffer up in place.
 */
module CStrings {
  import opened Devices

  const UINT_RANGE := 0x1_0000_0000
  const INT_RANGE := 0x8000_0000
  const CODE_FORMAT_ERROR := 0x22

  // ---------------------------------------------------------------- decimal numbers

  predicate IsDigit(c: char) { '0' <= c <= '9' }

  function Digit(d: nat): (c: char)
    requires d < 10
    ensures IsDigit(c) && c as int - '0' as int == d
  {
    '0' + d as char
  }

  /** What `%u` prints. */
  function Decimal(n: nat): (s: string)
    ensures s != "" && forall c | c in s :: IsDigit(c)
  {
    if n < 10 then [Digit(n)] else Decimal(n / 10) + [Digit(n % 10)]
  }

  /** Reading digits into an unsigned 32-bit accumulator, up to the end or a line feed; anything else is an error. */
  function Scan(s: string, code: nat): Option<nat> {
    if s == "" || s[0] == '\n' then Some(code)
    else if !IsDigit(s[0]) then None
    else Scan(s[1..], (code * 10 + (s[0] as int - '0' as int)) % UINT_RANGE)
  }

  /** The result as a signed integer: negative for an error, and for a value with the top bit set. */
  function Number(s: string): int {
    match Scan(s, 0)
    case None => -CODE_FORMAT_ERROR
    case Some(v) => if v < INT_RANGE then v else v - UINT_RANGE
  }

  /** The text before the first line feed. */
  function Line(s: string): string { if s == "" || s[0] == '\n' then "" else [s[0]] + Line(s[1..]) }

  /** The decimal value of digits that follow a number already read. */
  function Value(digits: string, code: nat): nat
    requires forall c | c in digits :: IsDigit(c)
  {
    if digits == "" then code
    else
      assert digits[0] in digits && IsDigit(digits[0]) && forall c | c in digits[1..] :: c in digits;
      Value(digits[1..], code * 10 + (digits[0] as int - '0' as int))
  }

  lemma NextAccumulator(code: nat, d: nat)
    ensures ((code % UINT_RANGE) * 10 + d) % UINT_RANGE == (code * 10 + d) % UINT_RANGE
  {
    var q := code / UINT_RANGE;
    assert code * 10 + d == (code % UINT_RANGE) * 10 + d + UINT_RANGE * (q * 10);
    ModOfSum((code % UINT_RANGE) * 10 + d, q * 10);
  }

  lemma {:induction false} ModOfSum(a: nat, k: nat)
    ensures (a + UINT_RANGE * k) % UINT_RANGE == a % UINT_RANGE
    decreases k
  {
    if k > 0 {
      ModOfSum(a, k - 1);
      assert a + UINT_RANGE * k == (a + UINT_RANGE * (k - 1)) + UINT_RANGE;
    }
  }

  lemma LineDigits(c: char, rest: string)
    requires IsDigit(c)
    ensures (forall d | d in [c] + rest :: IsDigit(d)) <==> forall d | d in rest :: IsDigit(d)
  {
    assert forall d | d in rest :: d in [c] + rest;
  }

  /** A line is read exactly when it holds nothing but digits, and then as its decimal value in 32 bits. */
  lemma {:induction false} ScanIff(s: string, code: nat)
    ensures Scan(s, code % UINT_RANGE).Some? <==> forall c | c in Line(s) :: IsDigit(c)
    ensures (forall c | c in Line(s) :: IsDigit(c)) ==>
              Scan(s, code % UINT_RANGE) == Some(Value(Line(s), code) % UINT_RANGE)
    decreases |s|
  {
    if s != "" && s[0] != '\n' {
      var line := Line(s);
      assert line == [s[0]] + Line(s[1..]) && line[0] == s[0] && line[1..] == Line(s[1..]);
      if IsDigit(s[0]) {
        var d := s[0] as int - '0' as int;
        NextAccumulator(code, d);
        ScanIff(s[1..], code * 10 + d);
        LineDigits(s[0], Line(s[1..]));
      } else {
        assert s[0] in line;
      }
    }
  }

  /** A line with anything else in it is an error; so, by accident, is a value with the top bit. */
  lemma NumberIff(s: string)
    ensures var digits := forall c | c in Line(s) :: IsDigit(c);
            && (!digits ==> Number(s) == -CODE_FORMAT_ERROR)
            && (digits ==>
                  var v := Value(Line(s), 0) % UINT_RANGE; Number(s) == if v < INT_RANGE then v else v - UINT_RANGE)
            && (Number(s) >= 0 <==> digits && Value(Line(s), 0) % UINT_RANGE < INT_RANGE)
  {
    ScanIff(s, 0);
  }

  lemma {:induction false} ScanAppend(a: string, b: string, code: nat)
    requires forall c | c in a :: IsDigit(c)
    ensures Scan(a, code).Some?
    ensures Scan(a + b, code) == Scan(b, Scan(a, code).value)
  {
    if a == "" {
      assert a + b == b;
    } else {
      assert a[0] in a && (a + b)[1..] == a[1..] + b;
      forall c | c in a[1..] ensures IsDigit(c) { assert c in a; }
      ScanAppend(a[1..], b, (code * 10 + (a[0] as int - '0' as int)) % UINT_RANGE);
    }
  }

  lemma {:induction false} ScanDecimal(n: nat)
    requires n < UINT_RANGE
    ensures Scan(Decimal(n), 0) == Some(n)
    decreases n
  {
    if n < 10 {
      assert Decimal(n)[1..] == "";
    } else {
      var last := [Digit(n % 10)];
      ScanAppend(Decimal(n / 10), last, 0);
      ScanDecimal(n / 10);
      assert last[1..] == "";
      assert Scan(last, n / 10) == Scan("", n);
    }
  }

  /** A printed number is read back unless it needs the top bit of 32. */
  lemma NumberOfDecimalIff(n: nat)
    requires n < UINT_RANGE
    ensures Number(Decimal(n)) == n <==> n < INT_RANGE
    ensures Number(Decimal(n)) < 0 <==> n >= INT_RANGE
  {
    ScanDecimal(n);
  }

  function Power10(k: nat): nat { if k == 0 then 1 else 10 * Power10(k - 1) }

  lemma {:induction false} DecimalLengthIff(n: nat, k: nat)
    requires k > 0
    ensures |Decimal(n)| <= k <==> n < Power10(k)
    decreases k
  {
    if n >= 10 && k > 1 {
      DecimalLengthIff(n / 10, k - 1);
    } else {
      AtLeastTen(k);
    }
  }

  lemma {:induction false} AtLeastTen(k: nat)
    requires k > 0
    ensures Power10(k) >= 10 && Power10(1) == 10
  {
    if k > 1 {
      AtLeastTen(k - 1);
    }
  }

  /** A 16-bit number has at most five digits, an 8-bit one at most three. */
  lemma DigitCounts(n: nat)
    ensures n < 0x1_0000 ==> |Decimal(n)| <= 5
    ensures n < 0x100 ==> |Decimal(n)| <= 3
  {
    DecimalLengthIff(n, 5);
    DecimalLengthIff(n, 3);
    assert Power10(3) == 1000 && Power10(5) == 100 * Power10(3);
  }

  // ---------------------------------------------------------------- words

  function SkipSpaces(s: string): (r: string)
    ensures |r| <= |s| && (r != "" ==> r[0] != ' ')
  {
    if s != "" && s[0] == ' ' then SkipSpaces(s[1..]) else s
  }

  function WordLength(s: string): (k: nat)
    ensures k <= |s|
    ensures s != "" && s[0] != ' ' ==> k > 0
  {
    if s == "" || s[0] == ' ' then 0 else 1 + WordLength(s[1..])
  }

  /** The words of a text: separators come in runs and may lead or trail. */
  function Tokens(s: string): seq<string>
    decreases |s|
  {
    var r := SkipSpaces(s);
    if r == "" then [] else [r[..WordLength(r)]] + Tokens(r[WordLength(r)..])
  }

  /** Words separated by single spaces. */
  function Spaced(words: seq<string>): string {
    if words == [] then ""
    else if |words| == 1 then words[0]
    else words[0] + (" " + Spaced(words[1..]))
  }

  lemma SpacedTwo(a: string, b: string)
    ensures Spaced([a, b]) == a + (" " + b)
  {
    assert [a, b][1..] == [b];
  }

  lemma SpacedThree(a: string, b: string, c: string)
    ensures Spaced([a, b, c]) == a + (" " + (b + (" " + c)))
    ensures |Spaced([a, b, c])| == |a| + |b| + |c| + 2
  {
    assert [a, b, c][1..] == [b, c];
    SpacedTwo(b, c);
  }

  predicate IsWord(s: string) { s != "" && forall c | c in s :: c != ' ' && c != '\0' }

  lemma {:induction false} WordLengthOf(w: string, rest: string)
    requires (forall c | c in w :: c != ' ') && (rest == "" || rest[0] == ' ')
    ensures WordLength(w + rest) == |w|
  {
    if w == "" {
      assert w + rest == rest;
    } else {
      assert w[0] in w && (w + rest)[1..] == w[1..] + rest;
      forall c | c in w[1..] ensures c != ' ' { assert c in w; }
      WordLengthOf(w[1..], rest);
    }
  }

  /** A leading word is the first token. */
  lemma FirstWord(w: string, rest: string)
    requires IsWord(w) && (rest == "" || rest[0] == ' ')
    ensures Tokens(w + rest) == [w] + Tokens(rest)
  {
    assert w[0] in w && (w + rest)[0] == w[0];
    WordLengthOf(w, rest);
    assert (w + rest)[..|w|] == w && (w + rest)[|w|..] == rest;
  }

  lemma JoinedTokens(w: string, rest: string, tail: string)
    requires IsWord(w) && tail == " " + rest
    ensures Tokens(w + tail) == [w] + Tokens(rest)
  {
    FirstWord(w, tail);
  }

  lemma TokensStep(words: seq<string>, text: string)
    requires |words| > 1 && IsWord(words[0]) && text == Spaced(words[1..]) && Tokens(text) == words[1..]
    ensures Tokens(Spaced(words)) == words
  {
    var tail := " " + text;
    JoinedTokens(words[0], text, tail);
  }

  lemma OneToken(w: string)
    requires IsWord(w)
    ensures Tokens(w) == [w]
  {
    FirstWord(w, "");
    assert w + "" == w;
  }

  /** Splitting undoes joining. */
  lemma {:induction false} TokensOfSpaced(words: seq<string>)
    requires forall i | 0 <= i < |words| :: IsWord(words[i])
    ensures Tokens(Spaced(words)) == words
    decreases |words|
  {
    if |words| == 1 {
      OneToken(words[0]);
    } else if words != [] {
      TokensOfSpaced(words[1..]);
      TokensStep(words, Spaced(words[1..]));
    }
  }

  /** The first word of a text, and what is left of the text. */
  lemma {:induction false} WordEnds(s: string)
    ensures var k := WordLength(s);
            && (forall c | c in s[..k] :: c != ' ') && (s[k..] == "" || s[k..][0] == ' ')
  {
    if s != "" && s[0] != ' ' {
      WordEnds(s[1..]);
      var k := WordLength(s);
      assert s[..k] == [s[0]] + s[1..][..k - 1] && s[k..] == s[1..][k - 1..];
    }
  }

  lemma TokensOfWord(w: string, rest: string)
    requires w != "" && (forall c | c in w :: c != ' ') && (rest == "" || rest[0] == ' ')
    ensures Tokens(w + rest) == [w] + Tokens(rest)
  {
    assert w[0] in w && (w + rest)[0] == w[0];
    WordLengthOf(w, rest);
    assert (w + rest)[..|w|] == w && (w + rest)[|w|..] == rest;
  }

  /** Whatever the spacing, splitting at any space is splitting both sides. */
  lemma {:induction false} TokensOfJoined(a: string, b: string)
    ensures Tokens(a + (" " + b)) == Tokens(a) + Tokens(b)
    decreases |a|
  {
    if a == "" {
      assert a + (" " + b) == " " + b && (" " + b)[1..] == b;
    } else if a[0] == ' ' {
      assert (a + (" " + b))[1..] == a[1..] + (" " + b);
      TokensOfJoined(a[1..], b);
    } else {
      var k := WordLength(a);
      var w, rest := a[..k], a[k..];
      WordEnds(a);
      assert a == w + rest && a + (" " + b) == w + (rest + (" " + b));
      TokensOfWord(w, rest);
      TokensOfWord(w, rest + (" " + b));
      TokensOfJoined(rest, b);
    }
  }

  lemma {:induction false} SpacedAppend(words: seq<string>, w: string)
    requires words != []
    ensures Spaced(words + [w]) == Spaced(words) + (" " + w)
    decreases |words|
  {
    if |words| > 1 {
      assert (words + [w])[1..] == words[1..] + [w];
      SpacedAppend(words[1..], w);
    } else {
      assert (words + [w])[1..] == [w];
    }
  }

  lemma {:induction false} SpacedHasNoTerminator(words: seq<string>)
    requires forall i | 0 <= i < |words| :: IsWord(words[i])
    ensures '\0' !in Spaced(words)
    decreases |words|
  {
    if words != [] {
      SpacedHasNoTerminator(words[1..]);
    }
  }

  // ---------------------------------------------------------------- text in a buffer

  /** What stands before the first terminator, if there is one. */
  function Content(b: seq<char>): Option<string> {
    if b == [] then None
    else if b[0] == '\0' then Some("")
    else
      match Content(b[1..])
      case None => None
      case Some(s) => Some([b[0]] + s)
  }

  /** `s` is the text in `b` from position `at` up to its terminator. */
  predicate Holds(b: seq<char>, at: int, s: string) {
    && 0 <= at && at + |s| < |b| && b[at..at + |s|] == s && b[at + |s|] == '\0' && '\0' !in s
  }

  /** Whatever follows the terminator is not part of the content. */
  lemma {:induction false} ContentIff(b: seq<char>, s: string)
    ensures Content(b) == Some(s) <==> Holds(b, 0, s)
  {
    if b != [] && b[0] != '\0' {
      if s != "" {
        ContentIff(b[1..], s[1..]);
        assert s == [s[0]] + s[1..];
        if Holds(b, 0, s) {
          assert b[1..][..|s| - 1] == b[0..|s|][1..];
        }
        if Holds(b[1..], 0, s[1..]) && b[0] == s[0] {
          assert b[..|s|] == [b[0]] + b[1..][..|s| - 1];
        }
      }
    }
  }

  lemma {:induction false} NoContentIff(b: seq<char>)
    ensures Content(b) == None <==> '\0' !in b
  {
    if b != [] {
      NoContentIff(b[1..]);
    }
  }

  // ---------------------------------------------------------------- reading a buffer in place

  /** The length of the text, or the whole length when it is not terminated. */
  method StringLength(buffer: array<char>, maxLength: nat) returns (n: nat)
    requires maxLength <= buffer.Length
    ensures match Content(buffer[..][..maxLength])
            case Some(s) => n == |s| && n < maxLength && Holds(buffer[..], 0, s)
            case None => n == maxLength
  {
    n := 0;
    while n < maxLength
      invariant 0 <= n <= maxLength && '\0' !in buffer[..][..n]
    {
      if buffer[n] == '\0' {
        assert buffer[..][..maxLength][0..n] == buffer[..][..n] == buffer[..][0..n];
        ContentIff(buffer[..][..maxLength], buffer[..][..n]);
        return;
      }
      n := n + 1;
    }
    NoContentIff(buffer[..][..maxLength]);
  }

  method StringToUnsigned(buffer: array<char>, at: nat, ghost s: string) returns (r: int)
    requires Holds(buffer[..], at, s)
    ensures r == Number(s)
  {
    var code: nat := 0;
    var i := at;
    assert s[0..] == s;
    while buffer[i] != '\0' && buffer[i] != '\n'
      invariant at <= i <= at + |s| && code < UINT_RANGE
      invariant Scan(s, 0) == Scan(s[i - at..], code)
      decreases at + |s| - i
    {
      assert buffer[..][at..at + |s|][i - at] == s[i - at] == buffer[i];
      assert s[i - at..][1..] == s[i + 1 - at..];
      var digit := buffer[i];
      if digit < '0' || digit > '9' {
        return -CODE_FORMAT_ERROR;
      }
      code := (code * 10 + (digit as int - '0' as int)) % UINT_RANGE;
      i := i + 1;
    }
    assert i < at + |s| ==> buffer[..][at..at + |s|][i - at] == s[i - at];
    return if code < INT_RANGE then code else code - UINT_RANGE;
  }

  /** No terminator stands from `from` on before the one at `n`. */
  predicate EndsAt(b: seq<char>, from: int, n: int) {
    0 <= from <= n < |b| && b[n] == '\0' && '\0' !in b[from..n]
  }

  /** Finds the start of the next word, or the end of the text. */
  method SkipDelimiters(buffer: array<char>, from: nat, ghost n: nat) returns (i: nat)
    requires EndsAt(buffer[..], from, n)
    ensures from <= i <= n && SkipSpaces(buffer[from..n]) == buffer[i..n] && buffer[i] != ' '
    ensures buffer[i] == '\0' <==> i == n
    ensures EndsAt(buffer[..], i, n)
  {
    ghost var t := buffer[from..n];
    i := from;
    while buffer[i] == ' '
      invariant from <= i <= n && SkipSpaces(t) == SkipSpaces(buffer[i..n])
      decreases n - i
    {
      assert buffer[i..n][0] == ' ' && buffer[i..n][1..] == buffer[i + 1..n];
      i := i + 1;
    }
    NoTerminatorWithin(buffer[..], from, n, i);
    assert i < n ==> buffer[i..n][0] == buffer[i] == buffer[..][i..n][0];
  }

  /** Finds the end of the word that starts at `i`. */
  method FindDelimiter(buffer: array<char>, i: nat, ghost n: nat) returns (j: nat)
    requires EndsAt(buffer[..], i, n)
    ensures i <= j <= n && j - i == WordLength(buffer[i..n])
    ensures if j == n then buffer[j] == '\0' else buffer[j] == ' '
  {
    j := i;
    while buffer[j] != ' ' && buffer[j] != '\0'
      invariant i <= j <= n && WordLength(buffer[i..n]) == j - i + WordLength(buffer[j..n])
      decreases n - j
    {
      assert buffer[j..n][0] != ' ' && buffer[j..n][1..] == buffer[j + 1..n];
      j := j + 1;
    }
    assert j < n ==> buffer[j] in buffer[..][i..n] && buffer[j..n][0] == ' ';
  }

  lemma NoTerminatorWithin(b: seq<char>, from: int, n: int, i: int)
    requires EndsAt(b, from, n) && from <= i <= n
    ensures EndsAt(b, i, n)
  {
    assert forall k | i <= k < n :: b[k] == b[from..n][k - from];
  }

  /** The word from `i` to `j` is the first one after `from`. */
  ghost predicate IsNextWord(b: seq<char>, from: int, n: int, i: int, j: int) {
    && EndsAt(b, from, n) && from <= i < j <= n
    && SkipSpaces(b[from..n]) == b[i..n] && j - i == WordLength(b[i..n])
    && (j < n ==> b[j] == ' ')
  }

  lemma SplitFirst(t: string, r: string, w: string, rest: string)
    requires SkipSpaces(t) == r && r != "" && w == r[..WordLength(r)] && rest == r[WordLength(r)..]
    ensures Tokens(t) != [] && Tokens(t)[0] == w && Tokens(t)[1..] == Tokens(rest)
  {
  }

  lemma DropDelimiter(tail: string)
    requires tail != "" && tail[0] == ' '
    ensures Tokens(tail) == Tokens(tail[1..])
  {
    assert " " + tail[1..] == tail;
  }

  lemma WordsAfter(b: seq<char>, from: int, n: int, i: int, j: int)
    requires IsNextWord(b, from, n, i, j)
    ensures var words := Tokens(b[from..n]);
            words != [] && words[0] == b[i..j] && words[1..] == Tokens(b[if j < n then j + 1 else j..n])
  {
    var tail := b[j..n];
    assert b[i..n][..j - i] == b[i..j] && b[i..n][j - i..] == tail;
    SplitFirst(b[from..n], b[i..n], b[i..j], tail);
    if j < n {
      DropDelimiter(tail);
      assert tail[1..] == b[j + 1..n];
    }
  }

  lemma CutHolds(b: seq<char>, c: seq<char>, from: int, n: int, i: int, j: int)
    requires EndsAt(b, from, n) && from <= i < j <= n && c == if j < n then b[j := '\0'] else b
    ensures var last := if j < n then j + 1 else j;
            Holds(c, i, b[i..j]) && EndsAt(c, last, n) && c[last..n] == b[last..n]
  {
    NoTerminatorWithin(b, from, n, i);
    NoTerminatorWithin(b, from, n, if j < n then j + 1 else j);
    assert c[i..i + (j - i)] == b[i..j];
    assert forall k | 0 <= k < j - i :: b[i..j][k] == b[i..n][k];
  }

  /** From `b` to `c` the next word has been cut out: it is at `token`, and what is left begins at `last`. */
  ghost predicate Took(b: seq<char>, c: seq<char>, from: int, n: int, token: int, last: int) {
    && |b| == |c| && EndsAt(b, from, n) && EndsAt(c, last, n) && from <= last
    && (forall i | 0 <= i < |b| && (i < from || last <= i) :: c[i] == b[i])
    && var words := Tokens(b[from..n]);
       if words == [] then token == -1
       else token != -1 && Holds(c, token, words[0]) && Tokens(c[last..n]) == words[1..]
  }

  lemma WordIsCut(b: seq<char>, c: seq<char>, from: int, n: int, i: int, j: int, last: int)
    requires IsNextWord(b, from, n, i, j)
    requires if j < n then c == b[j := '\0'] && last == j + 1 else c == b && last == j
    ensures Took(b, c, from, n, i, last)
  {
    WordsAfter(b, from, n, i, j);
    CutHolds(b, c, from, n, i, j);
  }

  lemma NoWord(b: seq<char>, from: int, n: int)
    requires EndsAt(b, from, n) && SkipSpaces(b[from..n]) == ""
    ensures Took(b, b, from, n, -1, n)
  {
  }

  /**
   Cuts the next word out of the text that ends at `n`: the delimiter after it is overwritten with a
   terminator, and the search goes on from `last`. There is no word left when `token` is -1.
   */
  method NextToken(buffer: array<char>, from: nat, ghost n: nat) returns (token: int, last: nat)
    requires EndsAt(buffer[..], from, n)
    modifies buffer
    ensures Took(old(buffer[..]), buffer[..], from, n, token, last)
  {
    ghost var b := buffer[..];
    var i := SkipDelimiters(buffer, from, n);
    assert b[i..n] == buffer[i..n] && b[from..n] == buffer[from..n];
    if buffer[i] == '\0' {
      NoWord(b, from, n);
      return -1, i;
    }
    var j := FindDelimiter(buffer, i, n);
    token, last := i, j;
    if buffer[j] != '\0' {
      buffer[j] := '\0';
      last := j + 1;
    }
    WordIsCut(b, buffer[..], from, n, i, j, last);
  }

  /** The next word as a number. */
  method NextNumber(buffer: array<char>, from: nat, ghost n: nat) returns (present: bool, value: int, last: nat)
    requires EndsAt(buffer[..], from, n)
    modifies buffer
    ensures from <= last && EndsAt(buffer[..], last, n)
    ensures forall i | 0 <= i < buffer.Length && (i < from || last <= i) :: buffer[..][i] == old(buffer[..])[i]
    ensures var words := Tokens(old(buffer[..])[from..n]);
            && (present <==> words != [])
            && (present ==> value == Number(words[0]) && Tokens(buffer[..][last..n]) == words[1..])
  {
    value := 0;
    var token;
    token, last := NextToken(buffer, from, n);
    present := token != -1;
    if present {
      value := StringToUnsigned(buffer, token, Tokens(old(buffer[..])[from..n])[0]);
    }
  }

  // ---------------------------------------------------------------- printing into a buffer

  /** From `b` to `c`, `text` has been printed at `at` into `size` bytes: cut short if necessary, always terminated. */
  ghost predicate Printed(b: seq<char>, c: seq<char>, at: int, size: int, text: string) {
    var k := if |text| < size then |text| else size - 1;
    && |b| == |c| && 0 <= at && 0 <= size && at + size <= |b|
    && (size == 0 ==> c == b)
    && (size > 0 ==>
          && c[at..at + k] == text[..k] && c[at + k] == '\0'
          && forall i | 0 <= i < |b| && (i < at || at + k < i) :: c[i] == b[i])
  }

  /** `snprintf`: the result is the length the text would have had. */
  method Print(buffer: array<char>, at: nat, size: nat, text: string) returns (length: nat)
    requires at + size <= buffer.Length
    modifies buffer
    ensures length == |text| && Printed(old(buffer[..]), buffer[..], at, size, text)
  {
    length := |text|;
    if size == 0 {
      return;
    }
    var i := 0;
    while i < |text| && i + 1 < size
      invariant 0 <= i <= |text| && i < size
      invariant buffer[at..at + i] == text[..i]
      invariant forall j | 0 <= j < buffer.Length && (j < at || at + i <= j) :: buffer[j] == old(buffer[..])[j]
    {
      buffer[at + i] := text[i];
      i := i + 1;
    }
    buffer[at + i] := '\0';
    assert buffer[..][at..at + i] == buffer[at..at + i] == text[..i];
  }

  /** Printing on from the terminator of what has been printed. */
  lemma PrintedOn(b: seq<char>, c: seq<char>, d: seq<char>, size: int, text: string, more: string)
    requires Printed(b, c, 0, size, text) && |text| < size
    requires Printed(c, d, |text|, size - |text|, more) && |text| + |more| < size
    ensures Printed(b, d, 0, size, text + more)
  {
    var n, m := |text|, |more|;
    assert forall i | 0 <= i < n :: d[i] == c[i] == c[0..n][i] == text[i];
    assert forall i | 0 <= i < m :: d[n + i] == d[n..n + m][i] == more[i];
    assert d[0..n + m] == text + more;
  }

  /** A text that fits is what a reader of the buffer finds, whatever the buffer held before. */
  lemma PrintedIsContent(b: seq<char>, c: seq<char>, size: int, text: string)
    requires Printed(b, c, 0, size, text) && |text| < size && '\0' !in text
    ensures Content(c[..size]) == Some(text)
  {
    assert c[..size][0..|text|] == c[0..|text|];
    ContentIff(c[..size], text);
  }
}
