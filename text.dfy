/** The string handling of the driver: decimal rendering of numbers (what
    `std::stringstream << n` produces), the two `std::string` searches the
    tokenizer uses, the delimited-list tokenizer `getArrayFromString`, and the
    reading of a NUL-terminated receive buffer as a string. */
module Text {
  import opened Wrappers

  // ---------------------------------------------------------------- decimal rendering

  predicate IsDigit(c: char) {
    '0' <= c <= '9'
  }

  predicate AllDigits(s: string) {
    forall i | 0 <= i < |s| :: IsDigit(s[i])
  }

  function DigitChar(d: nat): (c: char)
    requires d < 10
    ensures IsDigit(c) && c as int - '0' as int == d
  {
    ('0' as int + d) as char
  }

  /** The base-10 digits of n, most significant first, without leading zeros. */
  function NatToDecimal(n: nat): (s: string)
    ensures s != [] && AllDigits(s)
    ensures s[0] == '0' ==> n == 0
    decreases n
  {
    if n < 10 then [DigitChar(n)] else NatToDecimal(n / 10) + [DigitChar(n % 10)]
  }

  /** The number a string of digits denotes (the independent reading of NatToDecimal). */
  function DigitsValue(s: string): nat
    requires AllDigits(s)
    decreases |s|
  {
    if s == [] then 0 else DigitsValue(s[..|s| - 1]) * 10 + (s[|s| - 1] as int - '0' as int)
  }

  lemma {:induction false} NatToDecimalValue(n: nat)
    ensures DigitsValue(NatToDecimal(n)) == n
    decreases n
  {
    if n >= 10 {
      NatToDecimalValue(n / 10);
      var s := NatToDecimal(n);
      assert s[..|s| - 1] == NatToDecimal(n / 10);
    }
  }

  /** `std::stringstream << i` for a signed integer: a minus sign for negatives, then the digits. */
  function IntToDecimal(i: int): (s: string)
    ensures s != []
  {
    if i < 0 then "-" + NatToDecimal(-i) else NatToDecimal(i)
  }

  predicate IsDecimal(s: string) {
    (s != [] && AllDigits(s)) || (|s| > 1 && s[0] == '-' && AllDigits(s[1..]))
  }

  function DecimalValue(s: string): int
    requires IsDecimal(s)
  {
    if s[0] == '-' then 0 - DigitsValue(s[1..]) else DigitsValue(s)
  }

  /** The rendered text of i reads back as i: rendering is injective and faithful. */
  lemma IntToDecimalRoundTrip(i: int)
    ensures IsDecimal(IntToDecimal(i)) && DecimalValue(IntToDecimal(i)) == i
  {
    var s := IntToDecimal(i);
    if i < 0 {
      NatToDecimalValue(-i);
      assert s[1..] == NatToDecimal(-i);
    } else {
      NatToDecimalValue(i);
    }
  }

  // ---------------------------------------------------------------- std::string searches

  /** `s.find(c, from)`: the first position at or after `from` holding c; None is npos. */
  function Find(s: string, c: char, from: nat): (r: Option<nat>)
    ensures r.Some? ==> from <= r.value < |s| && s[r.value] == c
    decreases |s| - from
  {
    if from >= |s| then None else if s[from] == c then Some(from) else Find(s, c, from + 1)
  }

  /** Find returns the FIRST match: c does not occur between from and the result (or the end). */
  lemma {:induction false} FindIsFirst(s: string, c: char, from: nat)
    ensures Find(s, c, from).Some? ==> forall j | from <= j < Find(s, c, from).value :: s[j] != c
    ensures Find(s, c, from).None? ==> forall j | from <= j < |s| :: s[j] != c
    decreases |s| - from
  {
    if from < |s| && s[from] != c {
      FindIsFirst(s, c, from + 1);
    }
  }

  /** `s.find_first_not_of(c, from)`: the first position at or after `from` not holding c. */
  function FindFirstNotOf(s: string, c: char, from: nat): (r: Option<nat>)
    ensures r.Some? ==> from <= r.value < |s| && s[r.value] != c
    decreases |s| - from
  {
    if from >= |s| then None else if s[from] != c then Some(from) else FindFirstNotOf(s, c, from + 1)
  }

  /** FindFirstNotOf returns the FIRST non-c: only c lies between from and the result (or the end). */
  lemma {:induction false} FindFirstNotOfIsFirst(s: string, c: char, from: nat)
    ensures FindFirstNotOf(s, c, from).Some? ==> forall j | from <= j < FindFirstNotOf(s, c, from).value :: s[j] == c
    ensures FindFirstNotOf(s, c, from).None? ==> forall j | from <= j < |s| :: s[j] == c
    decreases |s| - from
  {
    if from < |s| && s[from] == c {
      FindFirstNotOfIsFirst(s, c, from + 1);
    }
  }

  /** `std::string(buf)` for a char buffer: the characters before the first NUL. */
  function CString(buf: seq<char>): (s: string)
    ensures |s| <= |buf| && s == buf[..|s|]
  {
    match Find(buf, '\0', 0)
    case Some(i) => buf[..i]
    case None => buf
  }

  /** The string holds no NUL, and stops at one unless it takes the whole buffer. */
  lemma CStringStops(buf: seq<char>)
    ensures var s := CString(buf);
      && (forall i | 0 <= i < |s| :: s[i] != '\0')
      && (|s| < |buf| ==> buf[|s|] == '\0')
  {
    FindIsFirst(buf, '\0', 0);
  }

  /** A buffer whose first NUL is at n holds the string of its first n characters. */
  lemma CStringAt(buf: seq<char>, n: nat)
    requires n < |buf| && buf[n] == '\0' && forall i | 0 <= i < n :: buf[i] != '\0'
    ensures CString(buf) == buf[..n]
  {
    CStringStops(buf);
  }

  // ---------------------------------------------------------------- the tokenizer

  /** The tokens getArrayFromString visits from position `from` on: skip delimiters
      (find_first_not_of), take up to the next delimiter or the end (find), repeat. */
  function TokensFrom(s: string, d: char, from: nat): seq<string>
    decreases |s| - from
  {
    match FindFirstNotOf(s, d, from)
    case None => []
    case Some(st) => [s[st..TokenEnd(s, d, st)]] + TokensFrom(s, d, TokenEnd(s, d, st))
  }

  /** Where the token starting at st ends: the next delimiter, or the end of s (npos). */
  function TokenEnd(s: string, d: char, st: nat): (e: nat)
    requires st < |s| && s[st] != d
    ensures st < e <= |s| && (e < |s| ==> s[e] == d)
  {
    match Find(s, d, st) case Some(x) => x case None => |s|
  }

  /** The token s[st..TokenEnd(s, d, st)] holds no delimiter. */
  lemma TokenEndClean(s: string, d: char, st: nat)
    requires st < |s| && s[st] != d
    ensures forall j | st <= j < TokenEnd(s, d, st) :: s[j] != d
  {
    FindIsFirst(s, d, st);
  }

  function Tokens(s: string, d: char): seq<string> {
    TokensFrom(s, d, 0)
  }

  predicate Clean(t: string, d: char) {
    t != [] && forall i | 0 <= i < |t| :: t[i] != d
  }

  /** Every token is non-empty and free of the delimiter. */
  lemma {:induction false} TokensClean(s: string, d: char, from: nat)
    ensures forall k | 0 <= k < |TokensFrom(s, d, from)| :: Clean(TokensFrom(s, d, from)[k], d)
    decreases |s| - from
  {
    match FindFirstNotOf(s, d, from)
    case None =>
    case Some(st) =>
      TokenEndClean(s, d, st);
      TokensClean(s, d, TokenEnd(s, d, st));
  }

  /** Skipping delimiters does not change the tokens still to come. */
  lemma SkipDelimiters(s: string, d: char, from: nat)
    ensures FindFirstNotOf(s, d, from).None? ==> TokensFrom(s, d, from) == []
    ensures FindFirstNotOf(s, d, from).Some? ==>
      TokensFrom(s, d, from) == TokensFrom(s, d, FindFirstNotOf(s, d, from).value)
  {
  }

  /** The tokens of p + q from position |p| + i are the tokens of q from i. */
  lemma {:induction false} TokensShift(p: string, q: string, d: char, i: nat)
    ensures TokensFrom(p + q, d, |p| + i) == TokensFrom(q, d, i)
    decreases |q| - i
  {
    FindFirstNotOfShift(p, q, d, i);
    match FindFirstNotOf(q, d, i)
    case None =>
    case Some(st) =>
      var e := TokenEnd(q, d, st);
      var x, rest := TokensShiftStep(p, q, d, i, st);
      TokensShift(p, q, d, e);
  }

  /** One token of TokensShift: p + q and q agree on where it starts and ends. */
  lemma TokensShiftStep(p: string, q: string, d: char, i: nat, st: nat) returns (x: string, rest: nat)
    requires FindFirstNotOf(q, d, i) == Some(st)
    ensures rest == TokenEnd(q, d, st) && x == q[st..rest]
    ensures TokensFrom(q, d, i) == [x] + TokensFrom(q, d, rest)
    ensures TokensFrom(p + q, d, |p| + i) == [x] + TokensFrom(p + q, d, |p| + rest)
  {
    FindFirstNotOfShift(p, q, d, i);
    rest := TokenEnd(q, d, st);
    x := q[st..rest];
    TokensFromAt(q, d, i, st);
    TokensFromAt(p + q, d, |p| + i, |p| + st);
    TokenEndShift(p, q, d, st);
    assert (p + q)[|p| + st..|p| + rest] == x;
  }

  /** The first token from `from` runs from its start st to its TokenEnd. */
  lemma TokensFromAt(s: string, d: char, from: nat, st: nat)
    requires FindFirstNotOf(s, d, from) == Some(st)
    ensures TokensFrom(s, d, from) == [s[st..TokenEnd(s, d, st)]] + TokensFrom(s, d, TokenEnd(s, d, st))
  {
  }

  lemma TokenEndShift(p: string, q: string, d: char, st: nat)
    requires st < |q| && q[st] != d
    ensures (p + q)[|p| + st] == q[st]
    ensures TokenEnd(p + q, d, |p| + st) == |p| + TokenEnd(q, d, st)
  {
    FindShift(p, q, d, st);
  }

  lemma {:induction false} FindShift(p: string, q: string, c: char, i: nat)
    ensures Find(p + q, c, |p| + i) == match Find(q, c, i) case Some(x) => Some(|p| + x) case None => None
    decreases |q| - i
  {
    if i < |q| && q[i] != c {
      FindShift(p, q, c, i + 1);
    }
  }

  lemma {:induction false} FindFirstNotOfShift(p: string, q: string, c: char, i: nat)
    ensures FindFirstNotOf(p + q, c, |p| + i) == match FindFirstNotOf(q, c, i) case Some(x) => Some(|p| + x) case None => None
    decreases |q| - i
  {
    if i < |q| && q[i] == c {
      FindFirstNotOfShift(p, q, c, i + 1);
    }
  }

  /** ts[0] d ts[1] d ... d ts[n-1]. */
  function Join(ts: seq<string>, d: char): string
    decreases |ts|
  {
    if ts == [] then [] else if |ts| == 1 then ts[0] else ts[0] + [d] + Join(ts[1..], d)
  }

  lemma JoinCons(t: string, ts: seq<string>, d: char)
    requires ts != []
    ensures Join([t] + ts, d) == t + [d] + Join(ts, d)
  {
    assert ([t] + ts)[1..] == ts;
  }

  /** Splitting a joined list gives the list back, whenever no token is empty or holds the delimiter. */
  lemma {:induction false} TokensOfJoin(ts: seq<string>, d: char)
    requires forall k | 0 <= k < |ts| :: Clean(ts[k], d)
    ensures Tokens(Join(ts, d), d) == ts
    decreases |ts|
  {
    if ts != [] {
      var t := ts[0];
      var s := Join(ts, d);
      assert Clean(t, d);
      if |ts| == 1 {
        assert s == t;
        FindNone(s, d, 0);
        assert FindFirstNotOf(s, d, 0) == Some(0);
        assert TokenEnd(s, d, 0) == |s|;
        assert FindFirstNotOf(s, d, |s|) == None;
        assert TokensFrom(s, d, 0) == [s[0..|s|]];
        assert s[0..|s|] == t;
      } else {
        var tail := Join(ts[1..], d);
        assert s == (t + [d]) + tail;
        FindAt(s, d, 0, |t|);
        assert FindFirstNotOf(s, d, 0) == Some(0);
        assert TokenEnd(s, d, 0) == |t|;
        assert TokensFrom(s, d, 0) == [s[0..|t|]] + TokensFrom(s, d, |t|);
        assert s[0..|t|] == t;
        TokensOfJoin(ts[1..], d);
        TokensShift(t + [d], tail, d, 0);
        SkipOne(s, d, |t|);
        assert ts == [t] + ts[1..];
      }
    }
  }

  /** No c from `from` on: Find reports npos. */
  lemma {:induction false} FindNone(s: string, c: char, from: nat)
    requires forall j | from <= j < |s| :: s[j] != c
    ensures Find(s, c, from) == None
    decreases |s| - from
  {
    if from < |s| {
      FindNone(s, c, from + 1);
    }
  }

  /** The first c at or after `from` is at k. */
  lemma {:induction false} FindAt(s: string, c: char, from: nat, k: nat)
    requires from <= k < |s| && s[k] == c
    requires forall j | from <= j < k :: s[j] != c
    ensures Find(s, c, from) == Some(k)
    decreases k - from
  {
    if from < k {
      FindAt(s, c, from + 1, k);
    }
  }

  /** A delimiter at `from` is skipped. */
  lemma SkipOne(s: string, d: char, from: nat)
    requires from < |s| && s[from] == d
    ensures TokensFrom(s, d, from) == TokensFrom(s, d, from + 1)
  {
    assert FindFirstNotOf(s, d, from) == FindFirstNotOf(s, d, from + 1);
  }

  /** A leading delimiter is skipped. */
  lemma LeadingDelimiter(s: string, d: char)
    ensures Tokens([d] + s, d) == Tokens(s, d)
  {
    SkipOne([d] + s, d, 0);
    TokensShift([d], s, d, 0);
  }

  /** The values stored for the first min(len, #tokens) tokens. */
  function TokenValues<T>(s: string, d: char, len: nat, toNumber: string -> T): (vs: seq<T>)
    ensures |vs| <= len && (|vs| == len || |vs| == |Tokens(s, d)|)
    ensures |vs| <= |Tokens(s, d)|
  {
    var ts := Tokens(s, d);
    Converted(ts, if len < |ts| then len else |ts|, toNumber)
  }

  /** An array prefix overwritten with vs, the rest as it was. */
  function Filled<T>(prev: seq<T>, vs: seq<T>): (r: seq<T>)
    requires |vs| <= |prev|
    ensures |r| == |prev| && r[..|vs|] == vs && r[|vs|..] == prev[|vs|..]
  {
    vs + prev[|vs|..]
  }

  /** getArrayFromString: store the numbers of the delimiter-separated tokens of s in
      data[0..len), skipping runs of delimiters; true iff exactly len slots were filled.
      Slots at and after the last token stored keep their old values. */
  method GetArrayFromString<T>(s: string, delim: char, data: array<T>, len: nat, toNumber: string -> T)
    returns (ok: bool)
    requires len <= data.Length
    modifies data
    ensures data[..] == Filled(old(data[..]), TokenValues(s, delim, len, toNumber))
    ensures ok <==> |Tokens(s, delim)| >= len
  {
    ghost var ts := Tokens(s, delim);
    ghost var before := data[..];
    SkipDelimiters(s, delim, 0);
    var start := FindFirstNotOf(s, delim, 0);
    var idx: nat := 0;
    while start.Some? && idx < len
      invariant idx <= len && idx <= |ts|
      invariant start.Some? ==> start.value < |s| && s[start.value] != delim
      invariant start.Some? ==> ts[idx..] == TokensFrom(s, delim, start.value)
      invariant start.None? ==> ts[idx..] == []
      invariant data[..] == Converted(ts, idx, toNumber) + before[idx..]
      decreases |s| - (if start.Some? then start.value else |s|)
    {
      var st := start.value;
      var end := Find(s, delim, st);
      var e := if end.Some? then end.value else |s|;
      assert e == TokenEnd(s, delim, st);
      var token := s[st..e];
      Advance(s, delim, ts, idx, st);
      SkipDelimiters(s, delim, e);
      if token == [] {
        token := "0.0";
      }
      data[idx] := toNumber(token);
      FilledStep(before, ts, idx, toNumber);
      assert data[..] == Filled(before, Converted(ts, idx + 1, toNumber));
      idx := idx + 1;
      start := if end.Some? then FindFirstNotOf(s, delim, e) else None;
    }
    ok := idx == len;
    ConvertedAll(s, delim, ts, idx, len, toNumber);
  }

  /** toNumber applied to the first n tokens. */
  function Converted<T>(ts: seq<string>, n: nat, toNumber: string -> T): (vs: seq<T>)
    requires n <= |ts|
    ensures |vs| == n && forall i | 0 <= i < n :: vs[i] == toNumber(ts[i])
  {
    if n == 0 then [] else Converted(ts, n - 1, toNumber) + [toNumber(ts[n - 1])]
  }

  /** Storing the value of token idx in slot idx extends the filled prefix by one. */
  lemma FilledStep<T>(before: seq<T>, ts: seq<string>, idx: nat, toNumber: string -> T)
    requires idx < |ts| && idx < |before|
    ensures Filled(before, Converted(ts, idx, toNumber))[idx := toNumber(ts[idx])]
         == Filled(before, Converted(ts, idx + 1, toNumber))
  {
    var a := Filled(before, Converted(ts, idx, toNumber))[idx := toNumber(ts[idx])];
    var b := Filled(before, Converted(ts, idx + 1, toNumber));
    assert forall i | 0 <= i < |a| :: a[i] == b[i];
  }

  /** When the loop stops, the converted prefix is exactly TokenValues. */
  lemma ConvertedAll<T>(s: string, d: char, ts: seq<string>, idx: nat, len: nat, toNumber: string -> T)
    requires ts == Tokens(s, d) && idx <= len && idx <= |ts|
    requires idx == len || idx == |ts|
    ensures Converted(ts, idx, toNumber) == TokenValues(s, d, len, toNumber)
  {
  }

  /** One turn of the tokenizer loop: the token at st is ts[idx], and the tokens after
      it are those from where it ends. */
  lemma Advance(s: string, d: char, ts: seq<string>, idx: nat, st: nat)
    requires st < |s| && s[st] != d && idx <= |ts|
    requires ts[idx..] == TokensFrom(s, d, st)
    ensures idx < |ts| && ts[idx] == s[st..TokenEnd(s, d, st)]
    ensures ts[idx + 1..] == TokensFrom(s, d, TokenEnd(s, d, st))
  {
    NextToken(s, d, st);
    assert ts[idx + 1..] == ts[idx..][1..];
  }

  /** At a non-delimiter, the next token runs to the next delimiter or the end. */
  lemma NextToken(s: string, d: char, st: nat)
    requires st < |s| && s[st] != d
    ensures TokensFrom(s, d, st) == [s[st..TokenEnd(s, d, st)]] + TokensFrom(s, d, TokenEnd(s, d, st))
  {
    assert FindFirstNotOf(s, d, st) == Some(st);
  }
}
