/** What `stream` computes besides the request: the `int()` of the
    Content-Length header, the bytes it writes, and the progress it reports
    while it writes them. */
module Content {
  import opened Wrappers
  import opened Http

  /** `chunk_size = 1 << 20`: what `iter_content` is asked for, and what the
      progress counter adds per chunk whatever the chunk's real length. */
  const ChunkSize := 0x10_0000

  predicate IsDigit(c: char) {
    '0' <= c <= '9'
  }

  /** The whitespace `int()` skips around a number: what `str.isspace`
      accepts, except U+001C to U+001F, which it leaves in place (and so
      rejects). */
  predicate IntSpace(c: char) {
    IsSpace(c) && !('\U{1C}' <= c <= '\U{1F}')
  }

  /** `s` without its leading whitespace: only whitespace is dropped, and
      all of it. */
  function StripStart(s: string): (r: string)
    ensures |r| <= |s| && r == s[|s| - |r|..]
    ensures forall i :: 0 <= i < |s| - |r| ==> IntSpace(s[i])
    ensures r != [] ==> !IntSpace(r[0])
  {
    if s != [] && IntSpace(s[0]) then StripStart(s[1..]) else s
  }

  /** `s` without its trailing whitespace: only whitespace is dropped, and
      all of it. */
  function StripEnd(s: string): (r: string)
    ensures r <= s
    ensures forall i :: |r| <= i < |s| ==> IntSpace(s[i])
    ensures r != [] ==> !IntSpace(r[|r| - 1])
  {
    if s != [] && IntSpace(s[|s| - 1]) then StripEnd(s[..|s| - 1]) else s
  }

  /** The text `int()` reads: whitespace removed from both ends. */
  function Strip(s: string): (r: string)
    ensures r != [] ==> !IntSpace(r[0]) && !IntSpace(r[|r| - 1])
  {
    StripEnd(StripStart(s))
  }

  /** Decimal digits, with single underscores allowed between two digits. */
  predicate Numeral(d: string) {
    && d != [] && IsDigit(d[0])
    && (|d| == 1 || Numeral(if d[1] == '_' then d[2..] else d[1..]))
  }

  /** The value of a numeral, read from its last digit back; underscores
      count for nothing. */
  function NumeralValue(d: string): int {
    if d == [] then 0
    else
      var last := d[|d| - 1];
      if last == '_' then NumeralValue(d[..|d| - 1])
      else 10 * NumeralValue(d[..|d| - 1]) + (last as int - '0' as int)
  }

  /** `int(s)`: an optional sign and a numeral between optional whitespace;
      None where `int()` raises ValueError. */
  function ParseInt(s: string): Option<int> {
    Signed(Strip(s))
  }

  /** `int()` of text without surrounding whitespace. */
  function Signed(u: string): Option<int> {
    var negative := u != [] && u[0] == '-';
    var d := if u != [] && (u[0] == '-' || u[0] == '+') then u[1..] else u;
    if Numeral(d) then
      var v := NumeralValue(d);
      Some(if negative then -v else v)
    else None
  }

  /** The decimal digits of n. */
  function Digits(n: nat): (d: string)
    ensures d != [] && forall i :: 0 <= i < |d| ==> IsDigit(d[i])
  {
    if n < 10 then [('0' as int + n) as char] else Digits(n / 10) + [('0' as int + n % 10) as char]
  }

  /** The bytes `iter_content` yields, as they end up in the file. */
  function Flatten(chunks: seq<seq<byte>>): seq<byte> {
    if chunks == [] then [] else Flatten(chunks[..|chunks| - 1]) + chunks[|chunks| - 1]
  }

  /** The values `show_progress` receives while n chunks are written: 0
      before the first, then one more chunk size after each. */
  function Progress(n: nat): (p: seq<int>)
    ensures |p| == n + 1
  {
    if n == 0 then [0] else Progress(n - 1) + [n * ChunkSize]
  }

  /** Reports are made only when the response carries a Content-Length. */
  function Reports(size: Option<int>, n: nat): seq<int> {
    if size.None? then [] else Progress(n)
  }

  // ---------------------------------------------------------------------
  // `int()` reads back what `str()` writes.

  lemma {:induction false} DigitsValue(n: nat)
    ensures NumeralValue(Digits(n)) == n
  {
    if n >= 10 {
      var d := Digits(n);
      assert d[..|d| - 1] == Digits(n / 10);
      DigitsValue(n / 10);
    }
  }

  lemma StripNoSpace(s: string)
    requires s != [] && !IntSpace(s[0]) && !IntSpace(s[|s| - 1])
    ensures Strip(s) == s
  {
  }

  /** `int()` reads back the decimal digits of a natural number. */
  lemma ParseNatural(m: nat)
    ensures ParseInt(Digits(m)) == Some(m)
  {
    var d := Digits(m);
    ParseDigits(d);
    DigitsValue(m);
  }

  /** A run of digits is read as its value. */
  lemma ParseDigits(d: string)
    requires d != [] && forall i :: 0 <= i < |d| ==> IsDigit(d[i])
    ensures ParseInt(d) == Some(NumeralValue(d))
  {
    StripDigits(d);
    SignedNatural(d);
  }

  /** A minus sign and a run of digits are read as minus its value. */
  lemma NegativeText(u: string, d: string)
    requires d != [] && forall i :: 0 <= i < |d| ==> IsDigit(d[i])
    requires u != [] && u[0] == '-' && u[1..] == d
    ensures ParseInt(u) == Some(-NumeralValue(d))
  {
    assert u[|u| - 1] == d[|d| - 1];
    StripDigits(u);
    SignedNegative(d, u);
  }

  /** Text that ends in a digit and starts with one or a minus sign is kept
      as it is by stripping, so `int()` reads it as Signed does. */
  lemma StripDigits(u: string)
    requires u != [] && (IsDigit(u[0]) || u[0] == '-') && IsDigit(u[|u| - 1])
    ensures ParseInt(u) == Signed(u)
  {
    StripNoSpace(u);
  }

  lemma SignedNatural(d: string)
    requires d != [] && forall i :: 0 <= i < |d| ==> IsDigit(d[i])
    ensures Signed(d) == Some(NumeralValue(d))
  {
    RunIsNumeral(d);
  }

  lemma SignedNegative(d: string, u: string)
    requires d != [] && forall i :: 0 <= i < |d| ==> IsDigit(d[i])
    requires u != [] && u[0] == '-' && u[1..] == d
    ensures Signed(u) == Some(-NumeralValue(d))
  {
    RunIsNumeral(d);
  }

  /** A run of digits is a numeral. */
  lemma {:induction false} RunIsNumeral(d: string)
    requires d != [] && forall i :: 0 <= i < |d| ==> IsDigit(d[i])
    ensures Numeral(d)
  {
    if |d| > 1 {
      assert d[1] != '_';
      RunIsNumeral(d[1..]);
    }
  }

  /** A numeral holds only digits and underscores. */
  lemma {:induction false} NumeralChars(d: string, i: nat)
    requires Numeral(d) && i < |d|
    ensures IsDigit(d[i]) || d[i] == '_'
  {
    if i > 0 {
      if d[1] == '_' {
        if i > 1 {
          NumeralChars(d[2..], i - 2);
        }
      } else {
        NumeralChars(d[1..], i - 1);
      }
    }
  }

  /** Text with a character that is neither a digit, an underscore, a sign
      nor whitespace is no integer. */
  lemma ParseIntRejects(s: string, i: nat)
    requires i < |s| && !IsDigit(s[i]) && s[i] != '_' && s[i] != '-' && s[i] != '+' && !IntSpace(s[i])
    ensures ParseInt(s) == None
  {
    var u := Strip(s);
    StripKeeps(s, i);
    var j :| 0 <= j < |u| && u[j] == s[i];
    var signed := u[0] == '-' || u[0] == '+';
    var d := if signed then u[1..] else u;
    var k := if signed then j - 1 else j;
    assert 0 <= k < |d| && d[k] == s[i];
    if Numeral(d) {
      NumeralChars(d, k);
    }
  }

  /** The information separators U+001C to U+001F, whitespace to
      `str.isspace`, make `int()` raise wherever they stand. */
  lemma SeparatorRejected(s: string, i: nat)
    requires i < |s| && '\U{1C}' <= s[i] <= '\U{1F}'
    ensures ParseInt(s) == None
  {
    ParseIntRejects(s, i);
  }

  /** Stripping keeps every character that is not whitespace. */
  lemma StripKeeps(s: string, i: nat)
    requires i < |s| && !IntSpace(s[i])
    ensures s[i] in Strip(s)
  {
    StripStartKeeps(s, i);
    var t := StripStart(s);
    var k :| 0 <= k < |t| && t[k] == s[i];
    StripEndKeeps(t, k);
  }

  lemma {:induction false} StripStartKeeps(s: string, i: nat)
    requires i < |s| && !IntSpace(s[i])
    ensures exists k :: 0 <= k < |StripStart(s)| && StripStart(s)[k] == s[i]
  {
    if IntSpace(s[0]) {
      assert i > 0 && s[1..][i - 1] == s[i];
      StripStartKeeps(s[1..], i - 1);
      assert StripStart(s) == StripStart(s[1..]);
    } else {
      assert StripStart(s)[i] == s[i];
    }
  }

  lemma {:induction false} StripEndKeeps(s: string, i: nat)
    requires i < |s| && !IntSpace(s[i])
    ensures exists k :: 0 <= k < |StripEnd(s)| && StripEnd(s)[k] == s[i]
  {
    if IntSpace(s[|s| - 1]) {
      assert i < |s| - 1 && s[..|s| - 1][i] == s[i];
      StripEndKeeps(s[..|s| - 1], i);
      assert StripEnd(s) == StripEnd(s[..|s| - 1]);
    } else {
      assert StripEnd(s)[i] == s[i];
    }
  }

  // ---------------------------------------------------------------------
  // The progress counter.

  /** After k chunks the counter stands at k chunk sizes. */
  lemma {:induction false} ProgressAt(n: nat, k: nat)
    requires k <= n
    ensures Progress(n)[k] == k * ChunkSize
  {
    if k < n {
      ProgressAt(n - 1, k);
    }
  }

  /** Each report is larger than the one before. */
  lemma ProgressIncreases(n: nat, i: nat, j: nat)
    requires i < j <= n
    ensures Progress(n)[i] < Progress(n)[j]
  {
    ProgressAt(n, i);
    ProgressAt(n, j);
  }

  /** Every chunk counts a full chunk size: the counter is at least the
      number of bytes written when no chunk is longer than that. */
  lemma {:induction false} ProgressCoversBytes(chunks: seq<seq<byte>>)
    requires forall i :: 0 <= i < |chunks| ==> |chunks[i]| <= ChunkSize
    ensures |Flatten(chunks)| <= Progress(|chunks|)[|chunks|]
  {
    ProgressAt(|chunks|, |chunks|);
    if chunks != [] {
      ProgressCoversBytes(chunks[..|chunks| - 1]);
      ProgressAt(|chunks| - 1, |chunks| - 1);
    }
  }

  /** It overshoots: when no chunk is longer than a chunk size and one is
      shorter, the final report exceeds the number of bytes written. */
  lemma {:induction false} ProgressOvershoots(chunks: seq<seq<byte>>, j: nat)
    requires forall i :: 0 <= i < |chunks| ==> |chunks[i]| <= ChunkSize
    requires j < |chunks| && |chunks[j]| < ChunkSize
    ensures |Flatten(chunks)| < Progress(|chunks|)[|chunks|]
  {
    var n := |chunks|;
    var init := chunks[..n - 1];
    assert forall i :: 0 <= i < |init| ==> init[i] == chunks[i];
    ProgressAt(n, n);
    ProgressAt(n - 1, n - 1);
    if j == n - 1 {
      ProgressCoversBytes(init);
    } else {
      ProgressOvershoots(init, j);
    }
  }
}
