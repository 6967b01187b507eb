/** Which limit an encoding breaks first, read off the value, and that the parser of internal/bencode/validate.go says so. */
module Breaches {
  import opened Common
  import opened Bencode

  /** The first limit that is broken when the value is read from front to back at nesting depth `depth`. */
  function Breach(v: Value, depth: nat, lim: Limits): Option<Error>
    decreases v, 1
  {
    match v
    case Int(_) => None
    case Str(s) => StrBreach(s, lim)
    case List(items) => if depth + 1 > lim.maxDepth then Some(ErrDepth) else ItemsBreach(items, depth, lim, 0)
    case Dict(entries) => if depth + 1 > lim.maxDepth then Some(ErrDepth) else EntriesBreach(entries, depth, lim, 0)
  }

  function StrBreach(s: Bytes, lim: Limits): Option<Error> {
    if StrWithin(s, lim) then None else Some(ErrStringTooLong)
  }

  /** `count` items stand before these. */
  function ItemsBreach(items: seq<Value>, depth: nat, lim: Limits, count: nat): Option<Error>
    decreases items, 0
  {
    if items == [] then None
    else if 0 < lim.maxListLen <= count then Some(ErrListTooLong)
    else if Breach(items[0], depth + 1, lim).Some? then Breach(items[0], depth + 1, lim)
    else ItemsBreach(items[1..], depth, lim, count + 1)
  }

  function EntriesBreach(entries: seq<Entry>, depth: nat, lim: Limits, count: nat): Option<Error>
    decreases entries, 0
  {
    if entries == [] then None
    else if 0 < lim.maxKeysPerDict <= count then Some(ErrDictTooLarge)
    else if EntryBreach(entries[0], depth, lim).Some? then EntryBreach(entries[0], depth, lim)
    else EntriesBreach(entries[1..], depth, lim, count + 1)
  }

  function EntryBreach(entry: Entry, depth: nat, lim: Limits): Option<Error>
    decreases entry, 2
  {
    if StrBreach(entry.key, lim).Some? then StrBreach(entry.key, lim) else Breach(entry.value, depth + 1, lim)
  }

  // ---- No breach, no limit broken ----

  lemma {:induction false} NoBreachIffWithin(v: Value, depth: nat, lim: Limits)
    ensures Breach(v, depth, lim).None? <==> Within(v, depth, lim)
    decreases v, 1
  {
    match v
    case Int(_) =>
    case Str(_) =>
    case List(items) => ItemsNoBreach(items, depth, lim, 0);
    case Dict(entries) => EntriesNoBreach(entries, depth, lim, 0);
  }

  lemma {:induction false} ItemsNoBreach(items: seq<Value>, depth: nat, lim: Limits, count: nat)
    ensures ItemsBreach(items, depth, lim, count).None?
            <==> ItemsWithin(items, depth, lim) && (items == [] || lim.maxListLen <= 0 || count + |items| <= lim.maxListLen)
    decreases items, 0
  {
    if items != [] {
      NoBreachIffWithin(items[0], depth + 1, lim);
      ItemsNoBreach(items[1..], depth, lim, count + 1);
    }
  }

  lemma {:induction false} EntriesNoBreach(entries: seq<Entry>, depth: nat, lim: Limits, count: nat)
    ensures EntriesBreach(entries, depth, lim, count).None?
            <==> EntriesWithin(entries, depth, lim)
                 && (entries == [] || lim.maxKeysPerDict <= 0 || count + |entries| <= lim.maxKeysPerDict)
    decreases entries, 0
  {
    if entries != [] {
      EntryNoBreach(entries[0], depth, lim);
      EntriesNoBreach(entries[1..], depth, lim, count + 1);
    }
  }

  lemma {:induction false} EntryNoBreach(entry: Entry, depth: nat, lim: Limits)
    ensures EntryBreach(entry, depth, lim).None? <==> EntryWithin(entry, depth, lim)
    decreases entry, 2
  {
    NoBreachIffWithin(entry.value, depth + 1, lim);
  }

  // ---- The parser names the first breach ----

  lemma StrBreached(d: Bytes, pos: nat, s: Bytes, lim: Limits)
    requires At(d, pos, EncodeStr(s)) && StrBreach(s, lim).Some?
    ensures pos < |d| && IsDigit(d[pos]) && ParseStr(d, pos, lim) == Err(ErrStringTooLong)
  {
    AtConcat(d, pos, Decimal(|s|), [COLON] + s);
    DecimalDigits(|s|);
    var e := pos + |Decimal(|s|)|;
    assert d[pos..e] == Decimal(|s|) && d[e..e + |[COLON] + s|][0] == COLON;
    DigitsEndIs(d, pos, Decimal(|s|));
    assert d[pos] == Decimal(|s|)[0];
  }

  /** On an encoding that breaks a limit the parser fails with the first breach. */
  lemma {:induction false} ValueBreached(d: Bytes, pos: nat, v: Value, depth: nat, lim: Limits)
    requires At(d, pos, Encode(v)) && Breach(v, depth, lim).Some?
    ensures pos < |d| && d[pos] != CHAR_E
    ensures ParseValue(d, pos, depth, lim) == Err(Breach(v, depth, lim).value)
    decreases v, 1
  {
    match v
    case Int(_) =>
    case Str(s) => StrBreached(d, pos, s, lim);
    case List(items) =>
      AtConcat(d, pos, [CHAR_L], EncodeItems(items));
      AtByte(d, pos, CHAR_L);
      if depth + 1 <= lim.maxDepth {
        ItemsBreached(d, pos + 1, items, depth, lim, 0, Breach(v, depth, lim).value);
      }
    case Dict(entries) =>
      AtConcat(d, pos, [CHAR_D], EncodeEntries(entries));
      AtByte(d, pos, CHAR_D);
      if depth + 1 <= lim.maxDepth {
        EntriesBreached(d, pos + 1, entries, depth, lim, 0, Breach(v, depth, lim).value);
      }
  }

  /** Neither a value nor an entry begins like the end of its container. */
  lemma ItemBegins(d: Bytes, pos: nat, v: Value)
    requires At(d, pos, Encode(v))
    ensures pos < |d| && d[pos] != CHAR_E
  {
    var s := Encode(v);
    if v.Str? {
      DecimalDigits(|v.s|);
      assert IsDigit(s[0]);
    }
    assert d[pos] == s[0];
  }

  lemma EntryBegins(d: Bytes, pos: nat, entry: Entry)
    requires At(d, pos, EncodeEntry(entry))
    ensures pos < |d| && IsDigit(d[pos])
  {
    var s := EncodeEntry(entry);
    DecimalDigits(|entry.key|);
    assert s[0] == Decimal(|entry.key|)[0];
    assert d[pos] == s[0];
  }

  lemma ItemsSplit(d: Bytes, pos: nat, items: seq<Value>, mid: nat)
    requires items != [] && At(d, pos, EncodeItems(items)) && mid == pos + |Encode(items[0])|
    ensures At(d, pos, Encode(items[0])) && At(d, mid, EncodeItems(items[1..])) && mid <= |d|
  {
    AtConcat(d, pos, Encode(items[0]), EncodeItems(items[1..]));
  }

  lemma {:induction false} ItemsBreached(d: Bytes, pos: nat, items: seq<Value>, depth: nat, lim: Limits, count: nat, e: Error)
    requires At(d, pos, EncodeItems(items)) && ItemsBreach(items, depth, lim, count) == Some(e)
    ensures pos <= |d| && ParseItems(d, pos, depth, lim, count) == Err(e)
    decreases items, 0
  {
    var first, mid := items[0], pos + |Encode(items[0])|;
    ItemsSplit(d, pos, items, mid);
    ItemBegins(d, pos, first);
    if lim.maxListLen <= 0 || count < lim.maxListLen {
      if Breach(first, depth + 1, lim).Some? {
        ValueBreached(d, pos, first, depth + 1, lim);
      } else {
        ItemPasses(d, pos, first, depth + 1, lim, mid);
        ItemsBreached(d, mid, items[1..], depth, lim, count + 1, e);
        ItemsFailLater(d, pos, depth, lim, count, first, mid, e);
      }
    }
  }

  lemma ItemPasses(d: Bytes, pos: nat, v: Value, depth: nat, lim: Limits, mid: nat)
    requires At(d, pos, Encode(v)) && Breach(v, depth, lim).None? && mid == pos + |Encode(v)|
    ensures pos < |d| && ParseValue(d, pos, depth, lim) == Ok(v, mid)
  {
    NoBreachIffWithin(v, depth, lim);
    ValueComplete(d, pos, v, depth, lim);
  }

  lemma ItemsFailLater(d: Bytes, pos: nat, depth: nat, lim: Limits, count: nat, v: Value, mid: nat, e: Error)
    requires pos < |d| && d[pos] != CHAR_E && (lim.maxListLen <= 0 || count < lim.maxListLen) && mid <= |d|
    requires ParseValue(d, pos, depth + 1, lim) == Ok(v, mid) && ParseItems(d, mid, depth, lim, count + 1) == Err(e)
    ensures ParseItems(d, pos, depth, lim, count) == Err(e)
  {
  }

  lemma {:induction false} EntriesBreached(d: Bytes, pos: nat, entries: seq<Entry>, depth: nat, lim: Limits, count: nat, e: Error)
    requires At(d, pos, EncodeEntries(entries)) && EntriesBreach(entries, depth, lim, count) == Some(e)
    ensures pos <= |d| && ParseEntries(d, pos, depth, lim, count) == Err(e)
    decreases entries, 0
  {
    var first, mid := entries[0], pos + |EncodeEntry(entries[0])|;
    EntriesSplit(d, pos, entries, mid, pos + |EncodeEntries(entries)|);
    EntryBegins(d, pos, first);
    if lim.maxKeysPerDict <= 0 || count < lim.maxKeysPerDict {
      if EntryBreach(first, depth, lim).Some? {
        EntryBreached(d, pos, first, depth, lim, e);
        FailsNow(d, pos, depth, lim, count, e);
      } else {
        EntryPasses(d, pos, first, depth, lim, mid);
        EntriesBreached(d, mid, entries[1..], depth, lim, count + 1, e);
        FailsLater(d, pos, depth, lim, count, first, mid, e);
      }
    }
  }

  lemma EntryPasses(d: Bytes, pos: nat, entry: Entry, depth: nat, lim: Limits, mid: nat)
    requires At(d, pos, EncodeEntry(entry)) && EntryBreach(entry, depth, lim).None? && mid == pos + |EncodeEntry(entry)|
    ensures pos < |d| && ParseEntry(d, pos, depth, lim) == Ok(entry, mid)
  {
    EntryNoBreach(entry, depth, lim);
    EntryComplete(d, pos, entry, depth, lim);
  }

  lemma FailsNow(d: Bytes, pos: nat, depth: nat, lim: Limits, count: nat, e: Error)
    requires pos < |d| && d[pos] != CHAR_E && (lim.maxKeysPerDict <= 0 || count < lim.maxKeysPerDict)
    requires ParseEntry(d, pos, depth, lim) == Err(e)
    ensures ParseEntries(d, pos, depth, lim, count) == Err(e)
  {
  }

  lemma FailsLater(d: Bytes, pos: nat, depth: nat, lim: Limits, count: nat, entry: Entry, mid: nat, e: Error)
    requires pos < |d| && d[pos] != CHAR_E && (lim.maxKeysPerDict <= 0 || count < lim.maxKeysPerDict) && mid <= |d|
    requires ParseEntry(d, pos, depth, lim) == Ok(entry, mid) && ParseEntries(d, mid, depth, lim, count + 1) == Err(e)
    ensures ParseEntries(d, pos, depth, lim, count) == Err(e)
  {
  }

  lemma {:induction false} EntryBreached(d: Bytes, pos: nat, entry: Entry, depth: nat, lim: Limits, e: Error)
    requires At(d, pos, EncodeEntry(entry)) && EntryBreach(entry, depth, lim) == Some(e)
    ensures pos < |d| && ParseEntry(d, pos, depth, lim) == Err(e)
    decreases entry, 2
  {
    EntryBegins(d, pos, entry);
    AtConcat(d, pos, EncodeStr(entry.key), Encode(entry.value));
    if StrBreach(entry.key, lim).Some? {
      StrBreached(d, pos, entry.key, lim);
    } else {
      StrComplete(d, pos, entry.key, lim);
      ValueBreached(d, pos + |EncodeStr(entry.key)|, entry.value, depth + 1, lim);
    }
  }

  /** Whatever the limits, an encoding is parsed to its value, or fails with its first breach. */
  lemma EncodingIsJudged(d: Bytes, pos: nat, v: Value, depth: nat, lim: Limits)
    requires At(d, pos, Encode(v))
    ensures pos <= |d|
    ensures ParseValue(d, pos, depth, lim)
            == match Breach(v, depth, lim)
               case None => Ok(v, pos + |Encode(v)|)
               case Some(e) => Err(e)
  {
    if Breach(v, depth, lim).Some? {
      ValueBreached(d, pos, v, depth, lim);
    } else {
      NoBreachIffWithin(v, depth, lim);
      ValueComplete(d, pos, v, depth, lim);
    }
  }
}
