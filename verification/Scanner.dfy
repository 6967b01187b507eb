/** The flat scanner findBencodeEnd of internal/client/metadata.go, which agrees with the recursive parser. */
module Scanner {
  import opened Common
  import opened Bencode

  const TWO_63: int := 0x8000_0000_0000_0000

  /** The value a Go int holds after `x` was computed. */
  function Wrap64(x: int): int {
    (x + TWO_63) % (2 * TWO_63) - TWO_63
  }

  lemma Wrap64Small(x: int)
    requires -TWO_63 <= x < TWO_63
    ensures Wrap64(x) == x
  {
  }

  lemma Wrap64Large(x: int)
    requires TWO_63 <= x < 3 * TWO_63
    ensures Wrap64(x) == x - 2 * TWO_63
  {
    assert (x + TWO_63) % (2 * TWO_63) == x + TWO_63 - 2 * TWO_63;
  }

  /** The length that the digits of a string give, with the scanner's check for overflow. */
  function Accumulate(digits: Bytes): (r: Option<int>)
    requires AllDigits(digits)
    ensures r.Some? ==> 0 <= r.value < TWO_63
  {
    if digits == [] then Some(0)
    else
      var n := |digits| - 1;
      match Accumulate(digits[..n])
      case None => None
      case Some(length) =>
        var next := Wrap64(length * 10 + (digits[n] as int - CHAR_0));
        if next < length then None else Some(next)
  }

  /** What scanning one token does: give up, or move to a position and change the depth. */
  datatype Token = Bad | Move(pos: int, change: int)

  function FirstE(b: Bytes, pos: nat): (e: nat)
    requires pos <= |b|
    ensures pos <= e <= |b| && (e < |b| ==> b[e] == CHAR_E)
    decreases |b| - pos
  {
    if pos < |b| && b[pos] != CHAR_E then FirstE(b, pos + 1) else pos
  }

  function ScanString(b: Bytes, pos: nat): Token
    requires pos <= |b|
  {
    var numEnd := DigitsEnd(b, pos);
    if numEnd >= |b| || b[numEnd] != COLON then Bad
    else
      match Accumulate(b[pos..numEnd])
      case None => Bad
      case Some(length) =>
        if Wrap64(numEnd + 1 + length) > |b| then Bad else Move(Wrap64(numEnd + 1 + length), 0)
  }

  function ScanToken(b: Bytes, pos: nat): Token
    requires pos < |b|
  {
    if b[pos] == CHAR_D || b[pos] == CHAR_L then Move(pos + 1, 1)
    else if b[pos] == CHAR_E then Move(pos + 1, -1)
    else if b[pos] == CHAR_I then
      var end := FirstE(b, pos + 1);
      if end >= |b| then Bad else Move(end + 1, 0)
    else if IsDigit(b[pos]) then ScanString(b, pos)
    else Bad
  }

  /** `Fault`: the next index is negative, so the program indexes out of range. */
  datatype Result = Found(end: int) | NotFound | Fault

  /** A Go slice is shorter than 2^63, so a sum that wraps is negative and every other move goes forward. */
  lemma TokenAdvances(b: Bytes, pos: nat)
    requires pos < |b| < TWO_63
    ensures ScanToken(b, pos).Move? ==> ScanToken(b, pos).pos < 0 || pos < ScanToken(b, pos).pos <= |b|
  {
    if IsDigit(b[pos]) && ScanToken(b, pos).Move? {
      var numEnd := DigitsEnd(b, pos);
      var length := Accumulate(b[pos..numEnd]).value;
      if numEnd + 1 + length < TWO_63 {
        Wrap64Small(numEnd + 1 + length);
      } else {
        Wrap64Large(numEnd + 1 + length);
      }
    }
  }

  /** The scanner's main loop. */
  function Scan(b: Bytes, pos: nat, depth: int): Result
    requires pos <= |b| < TWO_63
    decreases |b| - pos
  {
    if pos >= |b| then NotFound
    else
      TokenAdvances(b, pos);
      match ScanToken(b, pos)
      case Bad => NotFound
      case Move(pos', change) =>
        if depth + change == 0 then Found(pos')
        else if pos' < 0 then Fault
        else Scan(b, pos', depth + change)
  }

  method FindBencodeEnd(b: Bytes) returns (r: Result)
    requires |b| < TWO_63
    ensures r == if b == [] then NotFound else Scan(b, 0, 0)
  {
    if |b| == 0 {
      return NotFound;
    }
    var pos, depth := 0, 0;
    while pos < |b|
      invariant 0 <= pos <= |b| && Scan(b, pos, depth) == Scan(b, 0, 0)
      decreases |b| - pos
    {
      TokenAdvances(b, pos);
      ghost var token := ScanToken(b, pos);
      if b[pos] == CHAR_D || b[pos] == CHAR_L {
        depth := depth + 1;
        pos := pos + 1;
      } else if b[pos] == CHAR_E {
        depth := depth - 1;
        pos := pos + 1;
        if depth == 0 {
          return Found(pos);
        }
      } else if b[pos] == CHAR_I {
        var end := IntegerEnd(b, pos);
        if end >= |b| {
          return NotFound;
        }
        pos := end + 1;
      } else if CHAR_0 <= b[pos] <= CHAR_9 {
        var next := StringEnd(b, pos);
        if next.None? {
          return NotFound;
        }
        if next.value < 0 {
          return if depth == 0 then Found(next.value) else Fault;
        }
        pos := next.value;
      } else {
        return NotFound;
      }
      if depth == 0 {
        return Found(pos);
      }
    }
    return NotFound;
  }

  /** The integer case of findBencodeEnd. */
  method IntegerEnd(b: Bytes, pos: nat) returns (end: nat)
    requires pos < |b|
    ensures pos < end <= |b| && end == FirstE(b, pos + 1)
  {
    end := pos + 1;
    while end < |b| && b[end] != CHAR_E
      invariant pos < end <= |b| && FirstE(b, end) == FirstE(b, pos + 1)
    {
      end := end + 1;
    }
  }

  /** The string case of findBencodeEnd: where the scan goes on, unless it gives up. */
  method StringEnd(b: Bytes, pos: nat) returns (next: Option<int>)
    requires pos < |b|
    ensures next == match ScanString(b, pos) case Bad => None case Move(p, _) => Some(p)
  {
    var numEnd := pos;
    while numEnd < |b| && CHAR_0 <= b[numEnd] <= CHAR_9
      invariant pos <= numEnd <= |b| && DigitsEnd(b, numEnd) == DigitsEnd(b, pos)
    {
      numEnd := numEnd + 1;
    }
    if numEnd >= |b| || b[numEnd] != COLON {
      return None;
    }
    var length := ReadLength(b[pos..numEnd]);
    if length.None? {
      return None;
    }
    if Wrap64(numEnd + 1 + length.value) > |b| {
      return None;
    }
    return Some(Wrap64(numEnd + 1 + length.value));
  }

  method ReadLength(digits: Bytes) returns (r: Option<int>)
    requires AllDigits(digits)
    ensures r == Accumulate(digits)
  {
    var length, i := 0, 0;
    while i < |digits|
      invariant 0 <= i <= |digits| && Accumulate(digits[..i]) == Some(length)
    {
      assert digits[..i + 1][..i] == digits[..i];
      var following := Wrap64(length * 10 + (digits[i] as int - CHAR_0));
      if following < length {
        OverflowStays(digits, i + 1);
        return None;
      }
      length := following;
      i := i + 1;
    }
    assert digits[..i] == digits;
    r := Some(length);
  }

  lemma {:induction false} OverflowStays(digits: Bytes, i: nat)
    requires AllDigits(digits) && i <= |digits| && Accumulate(digits[..i]).None?
    ensures Accumulate(digits).None?
  {
    if i == |digits| {
      assert digits[..i] == digits;
    } else {
      var n := |digits| - 1;
      assert digits[..n][..i] == digits[..i];
      OverflowStays(digits[..n], i);
    }
  }

  // ---- Agreement with the grammar ----

  lemma {:induction false} AccumulateExact(digits: Bytes)
    requires AllDigits(digits) && Number(digits) < TWO_63
    ensures Accumulate(digits) == Some(Number(digits))
  {
    if digits != [] {
      var n := |digits| - 1;
      NumberPrefix(digits, n);
      AccumulateExact(digits[..n]);
      Wrap64Small(Number(digits));
    }
  }

  lemma StringToken(b: Bytes, pos: nat, s: Bytes, lim: Limits, end: nat)
    requires At(b, pos, EncodeStr(s)) && StrWithin(s, lim) && |b| < TWO_63 && end == pos + |EncodeStr(s)|
    ensures pos < |b| && IsDigit(b[pos]) && ScanString(b, pos) == Move(end, 0)
  {
    var digits := Decimal(|s|);
    var numEnd := pos + |digits|;
    DecimalDigits(|s|);
    AtConcat(b, pos, digits, [COLON] + s);
    AtConcat(b, numEnd, [COLON], s);
    AtByte(b, numEnd, COLON);
    DigitsEndIs(b, pos, digits);
    assert b[pos] == digits[0];
    AccumulateExact(digits);
    Wrap64Small(end);
  }

  lemma {:induction false} FirstEIs(b: Bytes, pos: nat, s: Bytes)
    requires At(b, pos, s + [CHAR_E]) && forall i :: 0 <= i < |s| ==> s[i] != CHAR_E
    ensures FirstE(b, pos) == pos + |s|
    decreases |s|
  {
    AtConcat(b, pos, s, [CHAR_E]);
    AtByte(b, pos + |s|, CHAR_E);
    if s != [] {
      assert s + [CHAR_E] == [s[0]] + (s[1..] + [CHAR_E]);
      AtConcat(b, pos, [s[0]], s[1..] + [CHAR_E]);
      AtByte(b, pos, s[0]);
      FirstEIs(b, pos + 1, s[1..]);
    }
  }

  lemma IntToken(b: Bytes, pos: nat, n: int, end: nat)
    requires At(b, pos, EncodeInt(n)) && end == pos + |EncodeInt(n)|
    ensures pos < |b| && end <= |b| && ScanToken(b, pos) == Move(end, 0)
  {
    var inner := Sign(n) + Decimal(Magnitude(n));
    DecimalDigits(Magnitude(n));
    assert EncodeInt(n) == [CHAR_I] + (inner + [CHAR_E]);
    AtConcat(b, pos, [CHAR_I], inner + [CHAR_E]);
    AtByte(b, pos, CHAR_I);
    FirstEIs(b, pos + 1, inner);
  }

  /** Scanning past a value at `depth` ends the scan at depth 0, and goes on behind the value otherwise. */
  ghost predicate ScansPast(b: Bytes, pos: nat, depth: nat, end: nat)
    requires |b| < TWO_63
  {
    && pos <= |b| && end <= |b|
    && Scan(b, pos, depth) == if depth == 0 then Found(end) else Scan(b, end, depth)
  }

  /** Scanning the rest of a container that was opened at `depth`. */
  ghost predicate Closes(b: Bytes, pos: nat, depth: nat, end: nat)
    requires |b| < TWO_63
  {
    && pos <= |b| && end <= |b|
    && Scan(b, pos, depth + 1) == if depth == 0 then Found(end) else Scan(b, end, depth)
  }

  lemma ScanSimple(b: Bytes, pos: nat, depth: nat, end: nat)
    requires pos < |b| < TWO_63 && end <= |b| && ScanToken(b, pos) == Move(end, 0)
    ensures ScansPast(b, pos, depth, end)
  {
  }

  lemma ScanOpen(b: Bytes, pos: nat, depth: nat, end: nat)
    requires pos < |b| < TWO_63 && (b[pos] == CHAR_L || b[pos] == CHAR_D) && Closes(b, pos + 1, depth, end)
    ensures ScansPast(b, pos, depth, end)
  {
  }

  lemma ScanClose(b: Bytes, pos: nat, depth: nat, end: nat)
    requires pos < |b| < TWO_63 && b[pos] == CHAR_E && end == pos + 1
    ensures Closes(b, pos, depth, end)
  {
  }

  lemma ScanThrough(b: Bytes, pos: nat, mid: nat, end: nat, depth: nat)
    requires |b| < TWO_63 && ScansPast(b, pos, depth + 1, mid) && Closes(b, mid, depth, end)
    ensures Closes(b, pos, depth, end)
  {
  }

  lemma {:induction false} ScanValue(b: Bytes, pos: nat, v: Value, depth: nat, nesting: nat, lim: Limits, end: nat)
    requires At(b, pos, Encode(v)) && Within(v, nesting, lim) && |b| < TWO_63 && end == pos + |Encode(v)|
    ensures ScansPast(b, pos, depth, end)
    decreases v, 1
  {
    match v
    case Int(n) =>
      IntToken(b, pos, n, end);
      ScanSimple(b, pos, depth, end);
    case Str(s) =>
      StringToken(b, pos, s, lim, end);
      ScanSimple(b, pos, depth, end);
    case List(items) =>
      OpensList(b, pos, items);
      ScanItems(b, pos + 1, items, depth, nesting, lim, end);
      ScanOpen(b, pos, depth, end);
    case Dict(entries) =>
      OpensDict(b, pos, entries);
      ScanEntries(b, pos + 1, entries, depth, nesting, lim, end);
      ScanOpen(b, pos, depth, end);
  }

  lemma OpensList(b: Bytes, pos: nat, items: seq<Value>)
    requires At(b, pos, Encode(List(items)))
    ensures pos < |b| && b[pos] == CHAR_L && At(b, pos + 1, EncodeItems(items))
    ensures |Encode(List(items))| == 1 + |EncodeItems(items)|
  {
    AtConcat(b, pos, [CHAR_L], EncodeItems(items));
    AtByte(b, pos, CHAR_L);
  }

  lemma OpensDict(b: Bytes, pos: nat, entries: seq<Entry>)
    requires At(b, pos, Encode(Dict(entries)))
    ensures pos < |b| && b[pos] == CHAR_D && At(b, pos + 1, EncodeEntries(entries))
    ensures |Encode(Dict(entries))| == 1 + |EncodeEntries(entries)|
  {
    AtConcat(b, pos, [CHAR_D], EncodeEntries(entries));
    AtByte(b, pos, CHAR_D);
  }

  lemma {:induction false} ScanItems(b: Bytes, pos: nat, items: seq<Value>, depth: nat, nesting: nat, lim: Limits, end: nat)
    requires At(b, pos, EncodeItems(items)) && ItemsWithin(items, nesting, lim) && |b| < TWO_63
    requires end == pos + |EncodeItems(items)|
    ensures Closes(b, pos, depth, end)
    decreases items, 0
  {
    if items == [] {
      AtByte(b, pos, CHAR_E);
      ScanClose(b, pos, depth, end);
    } else {
      var mid := pos + |Encode(items[0])|;
      AtConcat(b, pos, Encode(items[0]), EncodeItems(items[1..]));
      ScanValue(b, pos, items[0], depth + 1, nesting + 1, lim, mid);
      ScanItems(b, mid, items[1..], depth, nesting, lim, end);
      ScanThrough(b, pos, mid, end, depth);
    }
  }

  lemma {:induction false} ScanEntries(b: Bytes, pos: nat, entries: seq<Entry>, depth: nat, nesting: nat, lim: Limits, end: nat)
    requires At(b, pos, EncodeEntries(entries)) && EntriesWithin(entries, nesting, lim) && |b| < TWO_63
    requires end == pos + |EncodeEntries(entries)|
    ensures Closes(b, pos, depth, end)
    decreases entries, 0
  {
    if entries == [] {
      AtByte(b, pos, CHAR_E);
      ScanClose(b, pos, depth, end);
    } else {
      var mid := pos + |EncodeEntry(entries[0])|;
      AtConcat(b, pos, EncodeEntry(entries[0]), EncodeEntries(entries[1..]));
      ScanEntry(b, pos, entries[0], depth, nesting, lim, mid);
      ScanEntries(b, mid, entries[1..], depth, nesting, lim, end);
      ScanThrough(b, pos, mid, end, depth);
    }
  }

  lemma ScanTwo(b: Bytes, pos: nat, mid: nat, end: nat, depth: nat)
    requires |b| < TWO_63 && ScansPast(b, pos, depth + 1, mid) && ScansPast(b, mid, depth + 1, end)
    ensures ScansPast(b, pos, depth + 1, end)
  {
  }

  lemma EntryParts(b: Bytes, pos: nat, entry: Entry, at: nat)
    requires At(b, pos, EncodeEntry(entry)) && at == pos + |EncodeStr(entry.key)|
    ensures At(b, pos, EncodeStr(entry.key)) && At(b, at, Encode(entry.value))
    ensures |EncodeEntry(entry)| == |EncodeStr(entry.key)| + |Encode(entry.value)|
  {
    AtConcat(b, pos, EncodeStr(entry.key), Encode(entry.value));
  }

  lemma ScanKey(b: Bytes, pos: nat, key: Bytes, depth: nat, lim: Limits, at: nat)
    requires At(b, pos, EncodeStr(key)) && StrWithin(key, lim) && |b| < TWO_63 && at == pos + |EncodeStr(key)|
    ensures ScansPast(b, pos, depth, at)
  {
    StringToken(b, pos, key, lim, at);
    ScanSimple(b, pos, depth, at);
  }

  lemma {:induction false} ScanEntry(b: Bytes, pos: nat, entry: Entry, depth: nat, nesting: nat, lim: Limits, end: nat)
    requires At(b, pos, EncodeEntry(entry)) && EntryWithin(entry, nesting, lim) && |b| < TWO_63
    requires end == pos + |EncodeEntry(entry)|
    ensures ScansPast(b, pos, depth + 1, end)
    decreases entry, 2
  {
    var at := pos + |EncodeStr(entry.key)|;
    EntryParts(b, pos, entry, at);
    ScanKey(b, pos, entry.key, depth + 1, lim, at);
    ScanValue(b, at, entry.value, depth + 1, nesting + 1, lim, end);
    ScanTwo(b, pos, at, end, depth);
  }

  /** If a prefix is a value the validator accepts, the scanner returns the length of that prefix, whatever follows. */
  lemma ScannerAgrees(b: Bytes, v: Value, lim: Limits)
    requires Encode(v) <= b && Within(v, 0, lim) && |b| < TWO_63
    ensures b != [] && Scan(b, 0, 0) == Found(|Encode(v)|)
  {
    assert At(b, 0, Encode(v));
    ValueComplete(b, 0, v, 0, lim);
    ScanValue(b, 0, v, 0, 0, lim, |Encode(v)|);
  }

  /** The converse needs the validator: the scanner by itself accepts an unbalanced buffer. */
  lemma ScannerAloneIsTooLenient(lim: Limits)
    ensures Scan([CHAR_E, CHAR_D], 0, 0) == Found(2)
    ensures !exists v :: Encode(v) == [CHAR_E, CHAR_D] && Within(v, 0, lim)
  {
    var b := [CHAR_E, CHAR_D];
    assert ScanToken(b, 0) == Move(1, -1) && ScanToken(b, 1) == Move(2, 1);
    forall v
      ensures Encode(v) != b
    {
      FirstByte(v);
    }
  }

  /** No value begins with the closing `e`. */
  lemma FirstByte(v: Value)
    ensures Encode(v) != [] && Encode(v)[0] != CHAR_E
  {
    if v.Str? {
      DecimalDigits(|v.s|);
    }
  }

  // ---- When the scanner indexes out of range ----

  /** A length prefix that the digit check lets pass although the string would end at 2^63 or later. */
  predicate Overflows(b: Bytes, p: nat) {
    && p < |b| && IsDigit(b[p])
    && var numEnd := DigitsEnd(b, p);
       && numEnd < |b| && b[numEnd] == COLON
       && Accumulate(b[p..numEnd]).Some? && numEnd + 1 + Accumulate(b[p..numEnd]).value >= TWO_63
  }

  /** The scan that stands at `pos` with `depth` gets to position `p` with depth `d`. */
  predicate ScanVisits(b: Bytes, pos: nat, depth: int, p: nat, d: int)
    requires pos <= |b| < TWO_63
    decreases |b| - pos
  {
    pos < |b| &&
    ((pos == p && depth == d) ||
     (TokenAdvances(b, pos);
      var token := ScanToken(b, pos);
      token.Move? && depth + token.change != 0 && token.pos >= 0
      && ScanVisits(b, token.pos, depth + token.change, p, d)))
  }

  lemma OverflowWraps(b: Bytes, p: nat)
    requires p < |b| < TWO_63
    ensures ScanToken(b, p).Move? && ScanToken(b, p).pos < 0 <==> Overflows(b, p)
    ensures Overflows(b, p) ==> ScanToken(b, p).change == 0
  {
    if IsDigit(b[p]) {
      var numEnd := DigitsEnd(b, p);
      if numEnd < |b| && b[numEnd] == COLON && Accumulate(b[p..numEnd]).Some? {
        var length := Accumulate(b[p..numEnd]).value;
        if numEnd + 1 + length < TWO_63 {
          Wrap64Small(numEnd + 1 + length);
        } else {
          Wrap64Large(numEnd + 1 + length);
        }
      }
    }
  }

  ghost predicate MeetsOverflow(b: Bytes, pos: nat, depth: int)
    requires pos <= |b| < TWO_63
  {
    exists p: nat, d: int :: ScanVisits(b, pos, depth, p, d) && d != 0 && Overflows(b, p)
  }

  lemma MeetsOverflowNext(b: Bytes, pos: nat, depth: int, next: nat, depth': int)
    requires pos < |b| < TWO_63 && ScanToken(b, pos) == Move(next, depth' - depth) && depth' != 0 && next <= |b|
    ensures MeetsOverflow(b, pos, depth) <==> MeetsOverflow(b, next, depth')
  {
    TokenAdvances(b, pos);
    OverflowWraps(b, pos);
    if MeetsOverflow(b, next, depth') {
      var p: nat, d: int :| ScanVisits(b, next, depth', p, d) && d != 0 && Overflows(b, p);
      assert ScanVisits(b, pos, depth, p, d);
    }
    if MeetsOverflow(b, pos, depth) {
      var p: nat, d: int :| ScanVisits(b, pos, depth, p, d) && d != 0 && Overflows(b, p);
      assert ScanVisits(b, next, depth', p, d);
    }
  }

  /** The scan indexes out of range if and only if it meets, inside some container, such a length prefix. */
  lemma {:induction false} FaultIff(b: Bytes, pos: nat, depth: int)
    requires pos <= |b| < TWO_63
    ensures Scan(b, pos, depth) == Fault <==> MeetsOverflow(b, pos, depth)
    decreases |b| - pos
  {
    if pos < |b| {
      TokenAdvances(b, pos);
      OverflowWraps(b, pos);
      var token := ScanToken(b, pos);
      if token.Move? && token.pos < 0 && depth != 0 {
        assert ScanVisits(b, pos, depth, pos, depth);
      } else if token.Move? && token.pos >= 0 && depth + token.change != 0 {
        FaultIff(b, token.pos, depth + token.change);
        MeetsOverflowNext(b, pos, depth, token.pos, depth + token.change);
      }
    }
  }

  lemma LengthOverflows(b: Bytes, p: nat, n: nat)
    requires At(b, p, Decimal(n) + [COLON]) && n < TWO_63 <= p + |Decimal(n)| + 1 + n
    ensures Overflows(b, p)
  {
    var digits := Decimal(n);
    DecimalDigits(n);
    AtConcat(b, p, digits, [COLON]);
    AtByte(b, p + |digits|, COLON);
    DigitsEndIs(b, p, digits);
    AccumulateExact(digits);
    assert b[p] == digits[0];
  }

  /** An input that does it: a container with a string length that carries the sum past 2^63-1. */
  lemma LongLengthFaults(b: Bytes, n: nat)
    requires |b| < TWO_63 && [CHAR_D] + (Decimal(n) + [COLON]) <= b
    requires n < TWO_63 <= 1 + |Decimal(n)| + 1 + n
    ensures Scan(b, 0, 0) == Fault
  {
    assert At(b, 0, [CHAR_D] + (Decimal(n) + [COLON]));
    AtConcat(b, 0, [CHAR_D], Decimal(n) + [COLON]);
    LengthOverflows(b, 1, n);
    assert ScanVisits(b, 1, 1, 1, 1);
    FaultIff(b, 1, 1);
    assert ScanToken(b, 0) == Move(1, 1);
  }

  function Pow10(k: nat): nat {
    if k == 0 then 1 else 10 * Pow10(k - 1)
  }

  lemma {:induction false} NumberBelow(digits: Bytes)
    requires AllDigits(digits)
    ensures Number(digits) < Pow10(|digits|)
  {
    if digits != [] {
      NumberBelow(digits[..|digits| - 1]);
    }
  }

  lemma {:induction false} Pow10Monotone(a: nat, b: nat)
    requires a <= b
    ensures Pow10(a) <= Pow10(b)
  {
    if a < b {
      Pow10Monotone(a, b - 1);
    }
  }

  lemma Pow10Of18()
    ensures Pow10(18) == 1_000_000_000_000_000_000
  {
    assert Pow10(2) == 100;
    assert Pow10(4) == 10_000;
    assert Pow10(6) == 1_000_000;
    assert Pow10(8) == 100_000_000;
    assert Pow10(10) == 10_000_000_000;
    assert Pow10(12) == 1_000_000_000_000;
    assert Pow10(14) == 100_000_000_000_000;
    assert Pow10(16) == 10_000_000_000_000_000;
  }

  /** No string length has more than 18 digits: something a caller can look for. */
  ghost predicate ShortLengths(b: Bytes) {
    forall p: nat :: p < |b| && IsDigit(b[p]) && DigitsEnd(b, p) < |b| && b[DigitsEnd(b, p)] == COLON ==> DigitsEnd(b, p) - p <= 18
  }

  lemma ShortLengthFits(b: Bytes, p: nat)
    requires ShortLengths(b) && |b| <= 0x4000_0000_0000_0000
    ensures !Overflows(b, p)
  {
    if p < |b| && IsDigit(b[p]) && DigitsEnd(b, p) < |b| && b[DigitsEnd(b, p)] == COLON {
      var digits := b[p..DigitsEnd(b, p)];
      NumberBelow(digits);
      Pow10Monotone(|digits|, 18);
      Pow10Of18();
      AccumulateExact(digits);
    }
  }

  /** Without them the scanner never indexes out of range. */
  lemma ShortLengthsNeverFault(b: Bytes)
    requires ShortLengths(b) && |b| <= 0x4000_0000_0000_0000
    ensures Scan(b, 0, 0) != Fault
  {
    FaultIff(b, 0, 0);
    if MeetsOverflow(b, 0, 0) {
      var p: nat, d: int :| ScanVisits(b, 0, 0, p, d) && d != 0 && Overflows(b, p);
      ShortLengthFits(b, p);
    }
  }
}
