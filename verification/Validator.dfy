/** The in-place parser of internal/bencode/validate.go, and what Validate decides. */
module Validator {
  import opened Common
  import opened Bencode
  import opened Breaches

  /** A parser method ends like the parsing function: at the same place, or with the same error. */
  predicate Follows<T>(r: Parsed<T>, err: Option<Error>, pos: nat) {
    match r
    case Ok(_, end) => err == None && pos == end
    case Err(e) => err == Some(e)
  }

  predicate SameOutcome<T>(r: Parsed<T>, s: Parsed<T>) {
    match r
    case Ok(_, end) => s.Ok? && s.end == end
    case Err(e) => s == Err(e)
  }

  class Parser {
    const data: Bytes
    const lim: Limits
    var pos: nat

    constructor (data: Bytes, lim: Limits)
      ensures this.data == data && this.lim == lim && pos == 0
    {
      this.data, this.lim, this.pos := data, lim, 0;
    }

    method Value(depth: nat) returns (err: Option<Error>)
      requires pos <= |data|
      modifies this
      ensures pos <= |data| && Follows(ParseValue(data, old(pos), depth, lim), err, pos)
      decreases |data| - pos, 1
    {
      if pos >= |data| {
        return Some(ErrEOF);
      }
      var b := data[pos];
      if b == CHAR_I {
        err := Integer();
      } else if b == CHAR_L {
        err := ListValue(depth);
      } else if b == CHAR_D {
        err := DictValue(depth);
      } else if CHAR_0 <= b <= CHAR_9 {
        var s;
        s, err := ByteString();
      } else {
        err := Some(ErrSyntax);
      }
    }

    method Integer() returns (err: Option<Error>)
      requires pos < |data|
      modifies this
      ensures pos <= |data| && Follows(ParseInt(data, old(pos)), err, pos)
    {
      pos := pos + 1;
      if pos >= |data| {
        return Some(ErrEOF);
      }
      var digitStart := pos;
      if data[pos] == MINUS {
        pos := pos + 1;
        if pos >= |data| {
          return Some(ErrEOF);
        }
      }
      if pos >= |data| || data[pos] < CHAR_0 || data[pos] > CHAR_9 {
        return Some(ErrIntegerSyntax);
      }
      var first := pos;
      while pos < |data| && CHAR_0 <= data[pos] <= CHAR_9
        invariant first <= pos <= |data|
        invariant DigitsEnd(data, pos) == DigitsEnd(data, first)
      {
        pos := pos + 1;
      }
      var digits := data[first..pos];
      if |digits| > 1 && digits[0] == CHAR_0 {
        return Some(ErrIntegerSyntax);
      }
      if digitStart != first && digits[0] == CHAR_0 {
        return Some(ErrIntegerSyntax);
      }
      if pos >= |data| || data[pos] != CHAR_E {
        return Some(ErrIntegerSyntax);
      }
      pos := pos + 1;
      return None;
    }

    method ByteString() returns (out: Bytes, err: Option<Error>)
      requires pos <= |data|
      modifies this
      ensures pos <= |data| && Follows(ParseStr(data, old(pos), lim), err, pos)
      ensures err.None? ==> out == ParseStr(data, old(pos), lim).value
    {
      var start := pos;
      out := [];
      while pos < |data| && CHAR_0 <= data[pos] <= CHAR_9
        invariant start <= pos <= |data|
        invariant DigitsEnd(data, pos) == DigitsEnd(data, start)
      {
        pos := pos + 1;
      }
      if pos == start {
        return out, Some(ErrSyntax);
      }
      var digits := data[start..pos];
      if |digits| > 1 && digits[0] == CHAR_0 {
        return out, Some(ErrSyntax);
      }
      var length := 0;
      var i := 0;
      while i < |digits|
        invariant 0 <= i <= |digits|
        invariant length == Number(digits[..i])
        invariant i > 0 ==> length / 10 <= LENGTH_GUARD
      {
        if length > LENGTH_GUARD {
          NumberPrefix(digits, i);
          return out, Some(ErrStringTooLong);
        }
        assert digits[..i + 1][..i] == digits[..i];
        length := length * 10 + (digits[i] as int - CHAR_0);
        i := i + 1;
      }
      assert digits[..i] == digits;
      if lim.maxStrLen > 0 && length > lim.maxStrLen {
        return out, Some(ErrStringTooLong);
      }
      if pos >= |data| || data[pos] != COLON {
        return out, Some(ErrSyntax);
      }
      pos := pos + 1;
      if pos + length > |data| {
        return out, Some(ErrEOF);
      }
      out := data[pos..pos + length];
      pos := pos + length;
      return out, None;
    }

    method ListValue(depth: nat) returns (err: Option<Error>)
      requires pos < |data| && data[pos] == CHAR_L
      modifies this
      ensures pos <= |data| && Follows(ParseValue(data, old(pos), depth, lim), err, pos)
      decreases |data| - pos, 0
    {
      if depth + 1 > lim.maxDepth {
        return Some(ErrDepth);
      }
      pos := pos + 1;
      var count := 0;
      ghost var outcome := ParseItems(data, pos, depth, lim, 0);
      while pos < |data| && data[pos] != CHAR_E
        invariant old(pos) < pos <= |data|
        invariant SameOutcome(ParseItems(data, pos, depth, lim, count), outcome)
        decreases |data| - pos
      {
        if lim.maxListLen > 0 && count >= lim.maxListLen {
          return Some(ErrListTooLong);
        }
        err := Value(depth + 1);
        if err.Some? {
          return err;
        }
        count := count + 1;
      }
      if pos >= |data| {
        return Some(ErrEOF);
      }
      pos := pos + 1;
      return None;
    }

    method DictValue(depth: nat) returns (err: Option<Error>)
      requires pos < |data| && data[pos] == CHAR_D
      modifies this
      ensures pos <= |data| && Follows(ParseValue(data, old(pos), depth, lim), err, pos)
      decreases |data| - pos, 0
    {
      if depth + 1 > lim.maxDepth {
        return Some(ErrDepth);
      }
      pos := pos + 1;
      var keys := 0;
      ghost var outcome := ParseEntries(data, pos, depth, lim, 0);
      while pos < |data| && data[pos] != CHAR_E
        invariant old(pos) < pos <= |data|
        invariant SameOutcome(ParseEntries(data, pos, depth, lim, keys), outcome)
        decreases |data| - pos
      {
        if lim.maxKeysPerDict > 0 && keys >= lim.maxKeysPerDict {
          return Some(ErrDictTooLarge);
        }
        err := DictEntry(depth);
        if err.Some? {
          return err;
        }
        keys := keys + 1;
      }
      if pos >= |data| {
        return Some(ErrEOF);
      }
      pos := pos + 1;
      return None;
    }

    /** The part of dict's loop that reads one key and its value. */
    method DictEntry(depth: nat) returns (err: Option<Error>)
      requires pos < |data|
      modifies this
      ensures pos <= |data| && Follows(ParseEntry(data, old(pos), depth, lim), err, pos)
      decreases |data| - pos, 2
    {
      if !(CHAR_0 <= data[pos] <= CHAR_9) {
        return Some(ErrSyntax);
      }
      var key;
      key, err := ByteString();
      if err.Some? {
        return err;
      }
      err := Value(depth + 1);
    }
  }

  predicate SizeWithin(data: Bytes, lim: Limits) {
    lim.maxBytes > 0 ==> |data| <= lim.maxBytes
  }

  /** The first `n` bytes, but not all, are the encoding of a value within the limits. */
  predicate BeginsWith(data: Bytes, n: nat, v: Value, lim: Limits) {
    n < |data| && Encode(v) == data[..n] && Within(v, 0, lim)
  }

  lemma TrailingDecides(data: Bytes, lim: Limits)
    ensures (exists v, n: nat :: BeginsWith(data, n, v, lim))
            <==> ParseValue(data, 0, 0, lim).Ok? && ParseValue(data, 0, 0, lim).end != |data|
  {
    if v, n: nat :| BeginsWith(data, n, v, lim) {
      assert data[0..n] == data[..n];
      ValueComplete(data, 0, v, 0, lim);
    }
    if ParseValue(data, 0, 0, lim).Ok? && ParseValue(data, 0, 0, lim).end != |data| {
      ValueSound(data, 0, 0, lim);
      var r := ParseValue(data, 0, 0, lim);
      assert data[0..r.end] == data[..r.end];
      assert BeginsWith(data, r.end, r.value, lim);
    }
  }

  /** Validate accepts exactly the encodings of values within the limits. */
  method Validate(data: Bytes, lim: Limits) returns (err: Option<Error>)
    ensures err.None? <==> SizeWithin(data, lim) && exists v :: Encode(v) == data && Within(v, 0, lim)
    ensures err == Some(ErrTooLarge) <==> !SizeWithin(data, lim)
    ensures err == Some(ErrTrailingData) <==> SizeWithin(data, lim) && exists v, n: nat :: BeginsWith(data, n, v, lim)
    ensures forall v :: Encode(v) == data && SizeWithin(data, lim) ==> err == Breach(v, 0, lim)
  {
    if lim.maxBytes > 0 && |data| > lim.maxBytes {
      return Some(ErrTooLarge);
    }
    ValidateDecides(data, lim);
    TrailingDecides(data, lim);
    BreachDecides(data, lim);
    var p := new Parser(data, lim);
    err := p.Value(0);
    if err.Some? {
      return err;
    }
    if p.pos != |data| {
      return Some(ErrTrailingData);
    }
    return None;
  }

  lemma BreachDecides(data: Bytes, lim: Limits)
    ensures forall v :: Encode(v) == data ==>
              ParseValue(data, 0, 0, lim) == match Breach(v, 0, lim)
                                             case None => Ok(v, |data|)
                                             case Some(e) => Err(e)
  {
    forall v | Encode(v) == data
      ensures ParseValue(data, 0, 0, lim) == match Breach(v, 0, lim)
                                             case None => Ok(v, |data|)
                                             case Some(e) => Err(e)
    {
      assert data[0..|data|] == data;
      EncodingIsJudged(data, 0, v, 0, lim);
    }
  }

  lemma ValidateDecides(data: Bytes, lim: Limits)
    ensures (exists v :: Encode(v) == data && Within(v, 0, lim))
            <==> ParseValue(data, 0, 0, lim).Ok? && ParseValue(data, 0, 0, lim).end == |data|
    ensures ParseValue(data, 0, 0, lim) != Err(ErrTooLarge) && ParseValue(data, 0, 0, lim) != Err(ErrTrailingData)
  {
    if v :| Encode(v) == data && Within(v, 0, lim) {
      assert data[0..|data|] == data;
      ValueComplete(data, 0, v, 0, lim);
    }
    if ParseValue(data, 0, 0, lim).Ok? && ParseValue(data, 0, 0, lim).end == |data| {
      ValueSound(data, 0, 0, lim);
      assert data[0..|data|] == data;
    }
    ParseErrors(data, 0, 0, lim);
  }

  lemma {:induction false} ParseErrors(d: Bytes, pos: nat, depth: nat, lim: Limits)
    requires pos <= |d|
    ensures ParseValue(d, pos, depth, lim) != Err(ErrTooLarge) && ParseValue(d, pos, depth, lim) != Err(ErrTrailingData)
    decreases |d| - pos, 1
  {
    if pos < |d| && d[pos] == CHAR_L {
      ItemsErrors(d, pos + 1, depth, lim, 0);
    } else if pos < |d| && d[pos] == CHAR_D {
      EntriesErrors(d, pos + 1, depth, lim, 0);
    }
  }

  lemma {:induction false} ItemsErrors(d: Bytes, pos: nat, depth: nat, lim: Limits, count: nat)
    requires pos <= |d|
    ensures ParseItems(d, pos, depth, lim, count) != Err(ErrTooLarge)
    ensures ParseItems(d, pos, depth, lim, count) != Err(ErrTrailingData)
    decreases |d| - pos, 2
  {
    ParseErrors(d, pos, depth + 1, lim);
    if ParseValue(d, pos, depth + 1, lim).Ok? {
      ItemsErrors(d, ParseValue(d, pos, depth + 1, lim).end, depth, lim, count + 1);
    }
  }

  lemma {:induction false} EntriesErrors(d: Bytes, pos: nat, depth: nat, lim: Limits, count: nat)
    requires pos <= |d|
    ensures ParseEntries(d, pos, depth, lim, count) != Err(ErrTooLarge)
    ensures ParseEntries(d, pos, depth, lim, count) != Err(ErrTrailingData)
    decreases |d| - pos, 2
  {
    if pos < |d| {
      EntryErrors(d, pos, depth, lim);
      if ParseEntry(d, pos, depth, lim).Ok? {
        EntriesErrors(d, ParseEntry(d, pos, depth, lim).end, depth, lim, count + 1);
      }
    }
  }

  lemma {:induction false} EntryErrors(d: Bytes, pos: nat, depth: nat, lim: Limits)
    requires pos < |d|
    ensures ParseEntry(d, pos, depth, lim) != Err(ErrTooLarge) && ParseEntry(d, pos, depth, lim) != Err(ErrTrailingData)
    decreases |d| - pos, 1
  {
    if ParseStr(d, pos, lim).Ok? {
      ParseErrors(d, ParseStr(d, pos, lim).end, depth + 1, lim);
    }
  }

  /** And the value is the only one. */
  lemma AcceptedValueIsUnique(data: Bytes, lim: Limits, v: Value, w: Value)
    requires Encode(v) == data && Within(v, 0, lim)
    requires Encode(w) == data && Within(w, 0, lim)
    ensures v == w
  {
    assert Encode(w) + [] == data;
    EncodingIsPrefixFree(v, w, 0, lim, []);
  }

  /** Keys may come in any order and more than once: such a dictionary is accepted. */
  lemma RepeatedKeyAccepted(lim: Limits)
    requires lim.maxDepth >= 1 && lim.maxStrLen >= 1 && lim.maxKeysPerDict >= 2
    ensures Within(Dict([Entry([CHAR_D], Int(1)), Entry([CHAR_D], Int(0))]), 0, lim)
  {
    var first, second := Entry([CHAR_D], Int(1)), Entry([CHAR_D], Int(0));
    assert [first, second][1..] == [second] && [second][1..] == [];
    assert EntryWithin(first, 0, lim) && EntryWithin(second, 0, lim);
    assert EntriesWithin([second], 0, lim);
  }
}
