/** The bencode grammar, and the parser of internal/bencode/validate.go as a function. */
module Bencode {
  import opened Common

  const CHAR_D: byte := 100
  const CHAR_E: byte := 101
  const CHAR_I: byte := 105
  const CHAR_L: byte := 108
  const CHAR_0: byte := 48
  const CHAR_9: byte := 57
  const MINUS: byte := 45
  const COLON: byte := 58

  /** `(1<<31-1)/10`: a length prefix above this must not get another digit. */
  const LENGTH_GUARD: nat := 214748364

  datatype Value = Int(n: int) | Str(s: Bytes) | List(items: seq<Value>) | Dict(entries: seq<Entry>)

  /** Dictionary entries in the order they are written; the code puts no condition on keys. */
  datatype Entry = Entry(key: Bytes, value: Value)

  datatype Limits = Limits(maxBytes: int, maxDepth: int, maxStrLen: int, maxListLen: int, maxKeysPerDict: int)

  datatype Error =
    | ErrTooLarge | ErrEOF | ErrTrailingData | ErrSyntax | ErrDepth
    | ErrStringTooLong | ErrListTooLong | ErrDictTooLarge | ErrIntegerSyntax

  predicate IsDigit(b: byte) {
    CHAR_0 <= b <= CHAR_9
  }

  // ---- Decimal numbers ----

  function Decimal(n: nat): Bytes {
    if n < 10 then [CHAR_0 + n] else Decimal(n / 10) + [CHAR_0 + n % 10]
  }

  ghost predicate AllDigits(s: Bytes) {
    forall i :: 0 <= i < |s| ==> IsDigit(s[i])
  }

  function Number(digits: Bytes): nat
    requires AllDigits(digits)
  {
    if digits == [] then 0
    else Number(digits[..|digits| - 1]) * 10 + (digits[|digits| - 1] as int - CHAR_0)
  }

  predicate LeadingZero(digits: Bytes) {
    |digits| > 1 && digits[0] == CHAR_0
  }

  lemma {:induction false} DecimalDigits(n: nat)
    ensures Decimal(n) != [] && AllDigits(Decimal(n)) && !LeadingZero(Decimal(n))
    ensures Decimal(n)[0] == CHAR_0 ==> n == 0
    ensures Number(Decimal(n)) == n
  {
    if n >= 10 {
      DecimalDigits(n / 10);
      assert Decimal(n)[..|Decimal(n)| - 1] == Decimal(n / 10);
    }
  }

  lemma {:induction false} NumberDecimal(digits: Bytes)
    requires AllDigits(digits) && digits != [] && !LeadingZero(digits)
    ensures Decimal(Number(digits)) == digits
    ensures Number(digits) == 0 ==> digits == [CHAR_0]
  {
    var n := |digits| - 1;
    assert digits == digits[..n] + [digits[n]];
    if n > 0 {
      NumberDecimal(digits[..n]);
    } else {
      assert digits[..n] == [];
    }
  }

  lemma {:induction false} NumberPrefix(digits: Bytes, k: nat)
    requires AllDigits(digits) && k < |digits|
    ensures Number(digits[..k]) <= Number(digits) / 10
  {
    var n := |digits| - 1;
    if k < n {
      NumberPrefix(digits[..n], k);
      assert digits[..n][..k] == digits[..k];
    }
  }

  // ---- The grammar ----

  function Magnitude(n: int): nat {
    if n < 0 then -n else n
  }

  function Sign(n: int): Bytes {
    if n < 0 then [MINUS] else []
  }

  function EncodeInt(n: int): Bytes {
    [CHAR_I] + (Sign(n) + (Decimal(Magnitude(n)) + [CHAR_E]))
  }

  function EncodeStr(s: Bytes): Bytes {
    Decimal(|s|) + ([COLON] + s)
  }

  function Encode(v: Value): Bytes
    decreases v, 1
  {
    match v
    case Int(n) => EncodeInt(n)
    case Str(s) => EncodeStr(s)
    case List(items) => [CHAR_L] + EncodeItems(items)
    case Dict(entries) => [CHAR_D] + EncodeEntries(entries)
  }

  /** The elements of a list and the closing `e`. */
  function EncodeItems(items: seq<Value>): Bytes
    decreases items, 0
  {
    if items == [] then [CHAR_E] else Encode(items[0]) + EncodeItems(items[1..])
  }

  /** The entries of a dictionary and the closing `e`. */
  function EncodeEntries(entries: seq<Entry>): Bytes
    decreases entries, 0
  {
    if entries == [] then [CHAR_E] else EncodeEntry(entries[0]) + EncodeEntries(entries[1..])
  }

  function EncodeEntry(entry: Entry): Bytes
    decreases entry, 2
  {
    EncodeStr(entry.key) + Encode(entry.value)
  }

  /** The encodings that BEP 3 gives for -42 and "spam". */
  lemma ScalarExamples()
    ensures Encode(Int(-42)) == [0x69, 0x2D, 0x34, 0x32, 0x65]
    ensures Encode(Str([0x73, 0x70, 0x61, 0x6D])) == [0x34, 0x3A, 0x73, 0x70, 0x61, 0x6D]
  {
    assert Decimal(42) == Decimal(4) + [0x32];
  }

  /** A list is `l`, its items in order, `e`; a dictionary `d`, each key before its value, `e`. */
  lemma ContainerShapes(v: Value, w: Value, key: Bytes, other: Bytes)
    ensures Encode(List([v, w])) == [0x6C] + (Encode(v) + (Encode(w) + [0x65]))
    ensures Encode(Dict([Entry(key, v), Entry(other, w)]))
            == [0x64] + ((EncodeStr(key) + Encode(v)) + ((EncodeStr(other) + Encode(w)) + [0x65]))
  {
    TwoItems(v, w);
    TwoEntries(Entry(key, v), Entry(other, w));
  }

  lemma TwoItems(v: Value, w: Value)
    ensures EncodeItems([v, w]) == Encode(v) + (Encode(w) + [0x65])
  {
    ItemFirst(w, []);
    ItemFirst(v, [w]);
  }

  lemma ItemFirst(v: Value, rest: seq<Value>)
    ensures EncodeItems([v] + rest) == Encode(v) + EncodeItems(rest)
  {
    assert ([v] + rest)[1..] == rest;
  }

  lemma TwoEntries(v: Entry, w: Entry)
    ensures EncodeEntries([v, w]) == EncodeEntry(v) + (EncodeEntry(w) + [0x65])
  {
    EntryFirst(w, []);
    EntryFirst(v, [w]);
  }

  lemma EntryFirst(v: Entry, rest: seq<Entry>)
    ensures EncodeEntries([v] + rest) == EncodeEntry(v) + EncodeEntries(rest)
  {
    assert ([v] + rest)[1..] == rest;
  }

  predicate StrWithin(s: Bytes, lim: Limits) {
    (lim.maxStrLen > 0 ==> |s| <= lim.maxStrLen) && |s| / 10 <= LENGTH_GUARD
  }

  /** The value keeps the limits when it stands at nesting depth `depth`. */
  predicate Within(v: Value, depth: nat, lim: Limits)
    decreases v, 1
  {
    match v
    case Int(_) => true
    case Str(s) => StrWithin(s, lim)
    case List(items) =>
      depth + 1 <= lim.maxDepth && (lim.maxListLen > 0 ==> |items| <= lim.maxListLen)
      && ItemsWithin(items, depth, lim)
    case Dict(entries) =>
      depth + 1 <= lim.maxDepth && (lim.maxKeysPerDict > 0 ==> |entries| <= lim.maxKeysPerDict)
      && EntriesWithin(entries, depth, lim)
  }

  predicate ItemsWithin(items: seq<Value>, depth: nat, lim: Limits)
    decreases items, 0
  {
    items != [] ==> Within(items[0], depth + 1, lim) && ItemsWithin(items[1..], depth, lim)
  }

  predicate EntriesWithin(entries: seq<Entry>, depth: nat, lim: Limits)
    decreases entries, 0
  {
    entries != [] ==> EntryWithin(entries[0], depth, lim) && EntriesWithin(entries[1..], depth, lim)
  }

  predicate EntryWithin(entry: Entry, depth: nat, lim: Limits)
    decreases entry, 2
  {
    StrWithin(entry.key, lim) && Within(entry.value, depth + 1, lim)
  }

  // ---- The parser ----

  datatype Parsed<+T> = Ok(value: T, end: nat) | Err(error: Error)

  function DigitsEnd(d: Bytes, pos: nat): (e: nat)
    requires pos <= |d|
    ensures pos <= e <= |d| && AllDigits(d[pos..e])
    ensures e < |d| ==> !IsDigit(d[e])
    decreases |d| - pos
  {
    if pos < |d| && IsDigit(d[pos]) then
      var e := DigitsEnd(d, pos + 1);
      assert d[pos..e] == [d[pos]] + d[pos + 1..e];
      e
    else pos
  }

  function ParseInt(d: Bytes, pos: nat): (r: Parsed<Value>)
    requires pos < |d|
    ensures r.Ok? ==> pos < r.end <= |d|
  {
    var start := pos + 1;
    if start >= |d| then Err(ErrEOF)
    else if d[start] == MINUS then ParseMagnitude(d, start + 1, true)
    else ParseMagnitude(d, start, false)
  }

  /** The digits of an integer and the closing `e`. */
  function ParseMagnitude(d: Bytes, first: nat, negative: bool): (r: Parsed<Value>)
    requires first <= |d|
    ensures r.Ok? ==> first < r.end <= |d|
  {
    if first >= |d| then Err(ErrEOF)
    else if !IsDigit(d[first]) then Err(ErrIntegerSyntax)
    else
      var e := DigitsEnd(d, first);
      var digits := d[first..e];
      if digits == [] || LeadingZero(digits) then Err(ErrIntegerSyntax)
      else if negative && digits[0] == CHAR_0 then Err(ErrIntegerSyntax)
      else if e >= |d| || d[e] != CHAR_E then Err(ErrIntegerSyntax)
      else
        var magnitude: int := Number(digits);
        Ok(Int(if negative then -magnitude else magnitude), e + 1)
  }

  function ParseStr(d: Bytes, pos: nat, lim: Limits): (r: Parsed<Bytes>)
    requires pos <= |d|
    ensures r.Ok? ==> pos < r.end <= |d|
  {
    var e := DigitsEnd(d, pos);
    var digits := d[pos..e];
    if digits == [] then Err(ErrSyntax)
    else if LeadingZero(digits) then Err(ErrSyntax)
    else
      var length := Number(digits);
      if length / 10 > LENGTH_GUARD then Err(ErrStringTooLong)
      else if lim.maxStrLen > 0 && length > lim.maxStrLen then Err(ErrStringTooLong)
      else if e >= |d| || d[e] != COLON then Err(ErrSyntax)
      else if e + 1 + length > |d| then Err(ErrEOF)
      else Ok(d[e + 1..e + 1 + length], e + 1 + length)
  }

  function ParseValue(d: Bytes, pos: nat, depth: nat, lim: Limits): (r: Parsed<Value>)
    requires pos <= |d|
    ensures r.Ok? ==> pos < r.end <= |d|
    decreases |d| - pos, 1
  {
    if pos >= |d| then Err(ErrEOF)
    else if d[pos] == CHAR_I then ParseInt(d, pos)
    else if d[pos] == CHAR_L then
      if depth + 1 > lim.maxDepth then Err(ErrDepth)
      else
        match ParseItems(d, pos + 1, depth, lim, 0)
        case Ok(items, end) => Ok(List(items), end)
        case Err(e) => Err(e)
    else if d[pos] == CHAR_D then
      if depth + 1 > lim.maxDepth then Err(ErrDepth)
      else
        match ParseEntries(d, pos + 1, depth, lim, 0)
        case Ok(entries, end) => Ok(Dict(entries), end)
        case Err(e) => Err(e)
    else if IsDigit(d[pos]) then
      match ParseStr(d, pos, lim)
      case Ok(s, end) => Ok(Str(s), end)
      case Err(e) => Err(e)
    else Err(ErrSyntax)
  }

  /** The elements of a list after the first `count`, and the closing `e`. */
  function ParseItems(d: Bytes, pos: nat, depth: nat, lim: Limits, count: nat): (r: Parsed<seq<Value>>)
    requires pos <= |d|
    ensures r.Ok? ==> pos < r.end <= |d|
    decreases |d| - pos, 2
  {
    if pos >= |d| then Err(ErrEOF)
    else if d[pos] == CHAR_E then Ok([], pos + 1)
    else if lim.maxListLen > 0 && count >= lim.maxListLen then Err(ErrListTooLong)
    else
      match ParseValue(d, pos, depth + 1, lim)
      case Err(e) => Err(e)
      case Ok(v, mid) =>
        match ParseItems(d, mid, depth, lim, count + 1)
        case Err(e) => Err(e)
        case Ok(vs, end) => Ok([v] + vs, end)
  }

  /** The entries of a dictionary after the first `count`, and the closing `e`. */
  function ParseEntries(d: Bytes, pos: nat, depth: nat, lim: Limits, count: nat): (r: Parsed<seq<Entry>>)
    requires pos <= |d|
    ensures r.Ok? ==> pos < r.end <= |d|
    decreases |d| - pos, 2
  {
    if pos >= |d| then Err(ErrEOF)
    else if d[pos] == CHAR_E then Ok([], pos + 1)
    else if lim.maxKeysPerDict > 0 && count >= lim.maxKeysPerDict then Err(ErrDictTooLarge)
    else
      match ParseEntry(d, pos, depth, lim)
      case Err(e) => Err(e)
      case Ok(entry, mid) =>
        match ParseEntries(d, mid, depth, lim, count + 1)
        case Err(e) => Err(e)
        case Ok(es, end) => Ok([entry] + es, end)
  }

  /** A key, which must be a string, and its value. */
  function ParseEntry(d: Bytes, pos: nat, depth: nat, lim: Limits): (r: Parsed<Entry>)
    requires pos < |d|
    ensures r.Ok? ==> pos < r.end <= |d|
    decreases |d| - pos, 1
  {
    if !IsDigit(d[pos]) then Err(ErrSyntax)
    else
      match ParseStr(d, pos, lim)
      case Err(e) => Err(e)
      case Ok(key, at) =>
        match ParseValue(d, at, depth + 1, lim)
        case Err(e) => Err(e)
        case Ok(v, end) => Ok(Entry(key, v), end)
  }

  // ---- Soundness: what parses is the encoding of a value within the limits ----

  ghost predicate At(d: Bytes, pos: nat, s: Bytes) {
    pos + |s| <= |d| && d[pos..pos + |s|] == s
  }

  lemma AtConcat(d: Bytes, pos: nat, a: Bytes, b: Bytes)
    ensures At(d, pos, a + b) <==> At(d, pos, a) && At(d, pos + |a|, b)
  {
    if At(d, pos, a + b) {
      assert (a + b)[..|a|] == a && (a + b)[|a|..] == b;
      assert d[pos..pos + |a + b|][..|a|] == d[pos..pos + |a|];
      assert d[pos..pos + |a + b|][|a|..] == d[pos + |a|..pos + |a| + |b|];
    }
    if At(d, pos, a) && At(d, pos + |a|, b) {
      assert d[pos..pos + |a + b|] == d[pos..pos + |a|] + d[pos + |a|..pos + |a| + |b|];
    }
  }

  lemma AtByte(d: Bytes, pos: nat, b: byte)
    ensures At(d, pos, [b]) <==> pos < |d| && d[pos] == b
  {
  }

  lemma AtDigits(d: Bytes, pos: nat, e: nat, rest: Bytes)
    requires pos <= e <= |d| && At(d, e, rest)
    ensures At(d, pos, d[pos..e] + rest)
  {
    AtConcat(d, pos, d[pos..e], rest);
  }

  lemma MagnitudeSound(d: Bytes, first: nat, negative: bool)
    requires first <= |d| && ParseMagnitude(d, first, negative).Ok?
    ensures var r := ParseMagnitude(d, first, negative);
            && r.value.Int? && negative == (r.value.n < 0)
            && At(d, first, Decimal(Magnitude(r.value.n)) + [CHAR_E])
            && r.end == first + |Decimal(Magnitude(r.value.n))| + 1
  {
    var e := DigitsEnd(d, first);
    NumberDecimal(d[first..e]);
    AtByte(d, e, CHAR_E);
    AtDigits(d, first, e, [CHAR_E]);
  }

  lemma IntSound(d: Bytes, pos: nat)
    requires pos < |d| && d[pos] == CHAR_I && ParseInt(d, pos).Ok?
    ensures var r := ParseInt(d, pos);
            r.value.Int? && At(d, pos, EncodeInt(r.value.n)) && r.end == pos + |EncodeInt(r.value.n)|
  {
    var negative := d[pos + 1] == MINUS;
    var first := if negative then pos + 2 else pos + 1;
    MagnitudeSound(d, first, negative);
    var n := ParseInt(d, pos).value.n;
    assert Sign(n) == d[pos + 1..first];
    AtDigits(d, pos + 1, first, Decimal(Magnitude(n)) + [CHAR_E]);
    AtByte(d, pos, CHAR_I);
    AtConcat(d, pos, [CHAR_I], Sign(n) + (Decimal(Magnitude(n)) + [CHAR_E]));
  }

  lemma StrSound(d: Bytes, pos: nat, lim: Limits)
    requires pos <= |d| && ParseStr(d, pos, lim).Ok?
    ensures var r := ParseStr(d, pos, lim);
            At(d, pos, EncodeStr(r.value)) && r.end == pos + |EncodeStr(r.value)| && StrWithin(r.value, lim)
  {
    var e := DigitsEnd(d, pos);
    var s := ParseStr(d, pos, lim).value;
    NumberDecimal(d[pos..e]);
    AtByte(d, e, COLON);
    AtConcat(d, e, [COLON], s);
    AtDigits(d, pos, e, [COLON] + s);
  }

  ghost predicate ValueOk(d: Bytes, pos: nat, depth: nat, lim: Limits, v: Value, end: nat) {
    At(d, pos, Encode(v)) && end == pos + |Encode(v)| && Within(v, depth, lim)
  }

  ghost predicate ItemsOk(d: Bytes, pos: nat, depth: nat, lim: Limits, count: nat, items: seq<Value>, end: nat) {
    && At(d, pos, EncodeItems(items)) && end == pos + |EncodeItems(items)| && ItemsWithin(items, depth, lim)
    && (0 < lim.maxListLen && count <= lim.maxListLen ==> count + |items| <= lim.maxListLen)
  }

  ghost predicate EntriesOk(d: Bytes, pos: nat, depth: nat, lim: Limits, count: nat, entries: seq<Entry>, end: nat) {
    && At(d, pos, EncodeEntries(entries)) && end == pos + |EncodeEntries(entries)| && EntriesWithin(entries, depth, lim)
    && (0 < lim.maxKeysPerDict && count <= lim.maxKeysPerDict ==> count + |entries| <= lim.maxKeysPerDict)
  }

  lemma ItemsGrow(d: Bytes, pos: nat, depth: nat, lim: Limits, count: nat, v: Value, mid: nat, items: seq<Value>, end: nat)
    requires ValueOk(d, pos, depth + 1, lim, v, mid) && ItemsOk(d, mid, depth, lim, count + 1, items, end)
    requires lim.maxListLen > 0 ==> count < lim.maxListLen
    ensures ItemsOk(d, pos, depth, lim, count, [v] + items, end)
  {
    assert ([v] + items)[1..] == items;
    AtConcat(d, pos, Encode(v), EncodeItems(items));
  }

  ghost predicate EntryOk(d: Bytes, pos: nat, depth: nat, lim: Limits, entry: Entry, end: nat) {
    At(d, pos, EncodeEntry(entry)) && end == pos + |EncodeEntry(entry)| && EntryWithin(entry, depth, lim)
  }

  lemma EntriesGrow(d: Bytes, pos: nat, depth: nat, lim: Limits, count: nat, entry: Entry, mid: nat,
                    entries: seq<Entry>, end: nat)
    requires EntryOk(d, pos, depth, lim, entry, mid) && EntriesOk(d, mid, depth, lim, count + 1, entries, end)
    requires lim.maxKeysPerDict > 0 ==> count < lim.maxKeysPerDict
    ensures EntriesOk(d, pos, depth, lim, count, [entry] + entries, end)
  {
    assert ([entry] + entries)[1..] == entries;
    AtConcat(d, pos, EncodeEntry(entry), EncodeEntries(entries));
  }

  lemma {:induction false} ValueSound(d: Bytes, pos: nat, depth: nat, lim: Limits)
    requires pos <= |d| && ParseValue(d, pos, depth, lim).Ok?
    ensures ValueOk(d, pos, depth, lim, ParseValue(d, pos, depth, lim).value, ParseValue(d, pos, depth, lim).end)
    decreases |d| - pos, 1
  {
    AtByte(d, pos, d[pos]);
    if d[pos] == CHAR_I {
      IntSound(d, pos);
    } else if d[pos] == CHAR_L {
      ItemsSound(d, pos + 1, depth, lim, 0);
      AtConcat(d, pos, [CHAR_L], EncodeItems(ParseItems(d, pos + 1, depth, lim, 0).value));
    } else if d[pos] == CHAR_D {
      EntriesSound(d, pos + 1, depth, lim, 0);
      AtConcat(d, pos, [CHAR_D], EncodeEntries(ParseEntries(d, pos + 1, depth, lim, 0).value));
    } else {
      StrSound(d, pos, lim);
    }
  }

  lemma {:induction false} ItemsSound(d: Bytes, pos: nat, depth: nat, lim: Limits, count: nat)
    requires pos <= |d| && ParseItems(d, pos, depth, lim, count).Ok?
    ensures var r := ParseItems(d, pos, depth, lim, count);
            ItemsOk(d, pos, depth, lim, count, r.value, r.end)
    decreases |d| - pos, 2
  {
    if d[pos] == CHAR_E {
      AtByte(d, pos, CHAR_E);
    } else {
      var first := ParseValue(d, pos, depth + 1, lim);
      var rest := ParseItems(d, first.end, depth, lim, count + 1);
      ValueSound(d, pos, depth + 1, lim);
      ItemsSound(d, first.end, depth, lim, count + 1);
      assert ParseItems(d, pos, depth, lim, count) == Ok([first.value] + rest.value, rest.end);
      ItemsGrow(d, pos, depth, lim, count, first.value, first.end, rest.value, rest.end);
    }
  }

  lemma {:induction false} EntriesSound(d: Bytes, pos: nat, depth: nat, lim: Limits, count: nat)
    requires pos <= |d| && ParseEntries(d, pos, depth, lim, count).Ok?
    ensures EntriesOk(d, pos, depth, lim, count, ParseEntries(d, pos, depth, lim, count).value,
                      ParseEntries(d, pos, depth, lim, count).end)
    decreases |d| - pos, 2
  {
    if d[pos] == CHAR_E {
      AtByte(d, pos, CHAR_E);
    } else {
      var first := ParseEntry(d, pos, depth, lim);
      EntrySound(d, pos, depth, lim);
      EntriesSound(d, first.end, depth, lim, count + 1);
      EntriesSoundStep(d, pos, depth, lim, count, first);
    }
  }

  lemma EntriesSoundStep(d: Bytes, pos: nat, depth: nat, lim: Limits, count: nat, first: Parsed<Entry>)
    requires pos < |d| && d[pos] != CHAR_E && ParseEntries(d, pos, depth, lim, count).Ok?
    requires first == ParseEntry(d, pos, depth, lim) && EntryOk(d, pos, depth, lim, first.value, first.end)
    requires EntriesOk(d, first.end, depth, lim, count + 1, ParseEntries(d, first.end, depth, lim, count + 1).value,
                       ParseEntries(d, first.end, depth, lim, count + 1).end)
    ensures EntriesOk(d, pos, depth, lim, count, ParseEntries(d, pos, depth, lim, count).value,
                      ParseEntries(d, pos, depth, lim, count).end)
  {
    var rest := ParseEntries(d, first.end, depth, lim, count + 1);
    EntriesGrow(d, pos, depth, lim, count, first.value, first.end, rest.value, rest.end);
  }

  lemma {:induction false} EntrySound(d: Bytes, pos: nat, depth: nat, lim: Limits)
    requires pos < |d| && ParseEntry(d, pos, depth, lim).Ok?
    ensures var r := ParseEntry(d, pos, depth, lim);
            EntryOk(d, pos, depth, lim, r.value, r.end)
    decreases |d| - pos, 1
  {
    var key := ParseStr(d, pos, lim);
    StrSound(d, pos, lim);
    ValueSound(d, key.end, depth + 1, lim);
    AtConcat(d, pos, EncodeStr(key.value), Encode(ParseValue(d, key.end, depth + 1, lim).value));
  }

  // ---- Completeness: every encoding of a value within the limits parses, to that value ----

  lemma {:induction false} DigitsEndIs(d: Bytes, pos: nat, digits: Bytes)
    requires At(d, pos, digits) && AllDigits(digits)
    requires pos + |digits| < |d| ==> !IsDigit(d[pos + |digits|])
    ensures DigitsEnd(d, pos) == pos + |digits|
    decreases |digits|
  {
    if digits != [] {
      AtConcat(d, pos, digits[..1], digits[1..]);
      assert digits == digits[..1] + digits[1..];
      AtByte(d, pos, digits[0]);
      assert digits[..1] == [digits[0]];
      DigitsEndIs(d, pos + 1, digits[1..]);
    }
  }

  lemma MagnitudeComplete(d: Bytes, first: nat, n: int)
    requires At(d, first, Decimal(Magnitude(n)) + [CHAR_E])
    ensures d[first] != MINUS
    ensures ParseMagnitude(d, first, n < 0) == Ok(Int(n), first + |Decimal(Magnitude(n))| + 1)
  {
    var digits := Decimal(Magnitude(n));
    DecimalDigits(Magnitude(n));
    AtConcat(d, first, digits, [CHAR_E]);
    AtByte(d, first + |digits|, CHAR_E);
    DigitsEndIs(d, first, digits);
    assert d[first] == digits[0];
  }

  lemma IntComplete(d: Bytes, pos: nat, n: int)
    requires At(d, pos, EncodeInt(n))
    ensures d[pos] == CHAR_I && ParseInt(d, pos) == Ok(Int(n), pos + |EncodeInt(n)|)
  {
    var tail := Decimal(Magnitude(n)) + [CHAR_E];
    AtConcat(d, pos, [CHAR_I], Sign(n) + tail);
    AtByte(d, pos, CHAR_I);
    AtConcat(d, pos + 1, Sign(n), tail);
    AtByte(d, pos + 1, MINUS);
    MagnitudeComplete(d, pos + 1 + |Sign(n)|, n);
  }

  lemma StrComplete(d: Bytes, pos: nat, s: Bytes, lim: Limits)
    requires At(d, pos, EncodeStr(s)) && StrWithin(s, lim)
    ensures IsDigit(d[pos]) && ParseStr(d, pos, lim) == Ok(s, pos + |EncodeStr(s)|)
  {
    var digits := Decimal(|s|);
    DecimalDigits(|s|);
    AtConcat(d, pos, digits, [COLON] + s);
    AtConcat(d, pos + |digits|, [COLON], s);
    AtByte(d, pos + |digits|, COLON);
    DigitsEndIs(d, pos, digits);
    assert d[pos] == digits[0];
  }

  lemma {:induction false} ValueComplete(d: Bytes, pos: nat, v: Value, depth: nat, lim: Limits)
    requires At(d, pos, Encode(v)) && Within(v, depth, lim)
    ensures pos < |d| && d[pos] != CHAR_E
    ensures ParseValue(d, pos, depth, lim) == Ok(v, pos + |Encode(v)|)
    decreases v, 1
  {
    match v
    case Int(n) => IntComplete(d, pos, n);
    case Str(s) => StrComplete(d, pos, s, lim);
    case List(items) =>
      AtConcat(d, pos, [CHAR_L], EncodeItems(items));
      AtByte(d, pos, CHAR_L);
      ItemsComplete(d, pos + 1, items, depth, lim, 0);
    case Dict(entries) =>
      AtConcat(d, pos, [CHAR_D], EncodeEntries(entries));
      AtByte(d, pos, CHAR_D);
      EntriesComplete(d, pos + 1, entries, depth, lim, 0, pos + |Encode(v)|);
  }

  lemma ItemsStep(d: Bytes, pos: nat, items: seq<Value>, mid: nat, end: nat, depth: nat, lim: Limits, count: nat)
    requires items != [] && pos < |d| && d[pos] != CHAR_E && mid <= |d|
    requires lim.maxListLen > 0 ==> count < lim.maxListLen
    requires ParseValue(d, pos, depth + 1, lim) == Ok(items[0], mid)
    requires ParseItems(d, mid, depth, lim, count + 1) == Ok(items[1..], end)
    ensures ParseItems(d, pos, depth, lim, count) == Ok(items, end)
  {
    assert items == [items[0]] + items[1..];
  }

  lemma EntriesStep(d: Bytes, pos: nat, entries: seq<Entry>, mid: nat, end: nat, depth: nat, lim: Limits, count: nat)
    requires entries != [] && pos < |d| && d[pos] != CHAR_E && mid <= |d|
    requires lim.maxKeysPerDict > 0 ==> count < lim.maxKeysPerDict
    requires ParseEntry(d, pos, depth, lim) == Ok(entries[0], mid)
    requires ParseEntries(d, mid, depth, lim, count + 1) == Ok(entries[1..], end)
    ensures ParseEntries(d, pos, depth, lim, count) == Ok(entries, end)
  {
    assert entries == [entries[0]] + entries[1..];
  }

  lemma {:induction false} ItemsComplete(d: Bytes, pos: nat, items: seq<Value>, depth: nat, lim: Limits, count: nat)
    requires At(d, pos, EncodeItems(items)) && ItemsWithin(items, depth, lim)
    requires lim.maxListLen > 0 ==> count + |items| <= lim.maxListLen
    ensures ParseItems(d, pos, depth, lim, count) == Ok(items, pos + |EncodeItems(items)|)
    decreases items, 0
  {
    if items == [] {
      AtByte(d, pos, CHAR_E);
    } else {
      AtConcat(d, pos, Encode(items[0]), EncodeItems(items[1..]));
      ValueComplete(d, pos, items[0], depth + 1, lim);
      var mid := pos + |Encode(items[0])|;
      ItemsComplete(d, mid, items[1..], depth, lim, count + 1);
      ItemsStep(d, pos, items, mid, mid + |EncodeItems(items[1..])|, depth, lim, count);
    }
  }

  lemma EntriesSplit(d: Bytes, pos: nat, entries: seq<Entry>, mid: nat, end: nat)
    requires entries != [] && At(d, pos, EncodeEntries(entries))
    requires mid == pos + |EncodeEntry(entries[0])| && end == pos + |EncodeEntries(entries)|
    ensures At(d, pos, EncodeEntry(entries[0])) && At(d, mid, EncodeEntries(entries[1..]))
    ensures mid <= |d| && end == mid + |EncodeEntries(entries[1..])|
  {
    AtConcat(d, pos, EncodeEntry(entries[0]), EncodeEntries(entries[1..]));
  }

  lemma NoEntries(d: Bytes, pos: nat, depth: nat, lim: Limits, count: nat)
    requires At(d, pos, EncodeEntries([]))
    ensures ParseEntries(d, pos, depth, lim, count) == Ok([], pos + 1)
  {
    AtByte(d, pos, CHAR_E);
  }

  lemma {:induction false} EntriesComplete(d: Bytes, pos: nat, entries: seq<Entry>, depth: nat, lim: Limits, count: nat, end: nat)
    requires At(d, pos, EncodeEntries(entries)) && EntriesWithin(entries, depth, lim)
    requires lim.maxKeysPerDict > 0 ==> count + |entries| <= lim.maxKeysPerDict
    requires end == pos + |EncodeEntries(entries)|
    ensures ParseEntries(d, pos, depth, lim, count) == Ok(entries, end)
    decreases entries, 0
  {
    if entries == [] {
      NoEntries(d, pos, depth, lim, count);
    } else {
      var mid := pos + |EncodeEntry(entries[0])|;
      EntriesSplit(d, pos, entries, mid, end);
      EntryComplete(d, pos, entries[0], depth, lim);
      EntriesComplete(d, mid, entries[1..], depth, lim, count + 1, end);
      EntriesStep(d, pos, entries, mid, end, depth, lim, count);
    }
  }

  lemma {:induction false} EntryComplete(d: Bytes, pos: nat, entry: Entry, depth: nat, lim: Limits)
    requires At(d, pos, EncodeEntry(entry)) && EntryWithin(entry, depth, lim)
    ensures pos < |d| && d[pos] != CHAR_E
    ensures ParseEntry(d, pos, depth, lim) == Ok(entry, pos + |EncodeEntry(entry)|)
    decreases entry, 2
  {
    var at := pos + |EncodeStr(entry.key)|;
    AtConcat(d, pos, EncodeStr(entry.key), Encode(entry.value));
    StrComplete(d, pos, entry.key, lim);
    ValueComplete(d, at, entry.value, depth + 1, lim);
    assert ParseStr(d, pos, lim) == Ok(entry.key, at);
  }

  /** No two values within the limits have encodings of which one begins the other. */
  lemma EncodingIsPrefixFree(v: Value, w: Value, depth: nat, lim: Limits, rest: Bytes)
    requires Within(v, depth, lim) && Within(w, depth, lim) && Encode(v) == Encode(w) + rest
    ensures v == w && rest == []
  {
    var d := Encode(v);
    assert d[0..|d|] == d && d[0..|Encode(w)|] == Encode(w);
    ValueComplete(d, 0, v, depth, lim);
    ValueComplete(d, 0, w, depth, lim);
  }

  /** The overflow guard rejects no length that MaxStrLen allows, up to 2^31-1. */
  lemma GuardAllowsMaxStrLen(s: Bytes, lim: Limits)
    requires 0 < lim.maxStrLen <= 0x7fff_ffff
    ensures StrWithin(s, lim) <==> |s| <= lim.maxStrLen
  {
  }

  // ---- One encoding for each value ----

  /** No limit but the depth, and the guard on string lengths. */
  function Loose(depth: nat): Limits {
    Limits(0, depth, 0, 0, 0)
  }

  const SHORT: nat := 0x7fff_ffff

  /** A value whose encoding is short is nested no deeper than the encoding is long. */
  lemma {:induction false} ShortWithin(v: Value, depth: nat, max: nat)
    requires depth + |Encode(v)| <= max && |Encode(v)| <= SHORT
    ensures Within(v, depth, Loose(max))
    decreases v, 1
  {
    match v
    case Int(_) =>
    case Str(s) =>
    case List(items) => ShortItemsWithin(items, depth, max);
    case Dict(entries) => ShortEntriesWithin(entries, depth, max);
  }

  lemma {:induction false} ShortItemsWithin(items: seq<Value>, depth: nat, max: nat)
    requires depth + 1 + |EncodeItems(items)| <= max && |EncodeItems(items)| <= SHORT
    ensures ItemsWithin(items, depth, Loose(max)) && depth + 1 <= max
    decreases items, 0
  {
    if items != [] {
      ShortWithin(items[0], depth + 1, max);
      ShortItemsWithin(items[1..], depth, max);
    }
  }

  lemma {:induction false} ShortEntriesWithin(entries: seq<Entry>, depth: nat, max: nat)
    requires depth + 1 + |EncodeEntries(entries)| <= max && |EncodeEntries(entries)| <= SHORT
    ensures EntriesWithin(entries, depth, Loose(max)) && depth + 1 <= max
    decreases entries, 0
  {
    if entries != [] {
      ShortEntryWithin(entries[0], depth, max);
      ShortEntriesWithin(entries[1..], depth, max);
    }
  }

  lemma {:induction false} ShortEntryWithin(entry: Entry, depth: nat, max: nat)
    requires depth + 1 + |EncodeEntry(entry)| <= max && |EncodeEntry(entry)| <= SHORT
    ensures EntryWithin(entry, depth, Loose(max))
    decreases entry, 2
  {
    ShortWithin(entry.value, depth + 1, max);
  }

  /** Different values have different encodings. */
  lemma EncodingIsInjective(v: Value, w: Value)
    requires Encode(v) == Encode(w) && |Encode(v)| <= SHORT
    ensures v == w
  {
    var max := |Encode(v)|;
    ShortWithin(v, 0, max);
    ShortWithin(w, 0, max);
    assert Encode(w) + [] == Encode(v);
    EncodingIsPrefixFree(v, w, 0, Loose(max), []);
  }
}
