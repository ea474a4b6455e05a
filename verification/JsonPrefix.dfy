/** A printed document that is cut off is no document: what a truncated length field leads to. */
module JsonPrefix {
  import opened Basics
  import opened Utf8
  import opened Digits
  import opened Json
  import opened JsonLaws

  /** The same reading with more bytes left over. */
  function Longer<T>(r: Option<Parsed<T>>, more: Bytes): Option<Parsed<T>> {
    match r case None => None case Some(x) => Some(Parsed(x.value, x.rest + more))
  }

  // -- a reading does not depend on what follows -----------------------------------------------------

  lemma UnitMore(b: Bytes, more: Bytes, i: nat)
    requires ReadUnit(b, i).Some?
    ensures ReadUnit(b + more, i) == ReadUnit(b, i)
  {
  }

  lemma UnicodeEscapeMore(b: Bytes, more: Bytes)
    requires ReadUnicodeEscape(b).Some?
    ensures ReadUnicodeEscape(b + more) == Longer(ReadUnicodeEscape(b), more)
  {
    hide ReadUnit;
    UnitMore(b, more, 0);
    assert (b + more)[4..] == b[4..] + more;
    if !IsScalar(ReadUnit(b, 0).value) {
      UnitMore(b, more, 6);
      assert (b + more)[10..] == b[10..] + more;
    }
  }

  lemma CharMore(b: Bytes, more: Bytes)
    requires ReadChar(b).Some?
    ensures ReadChar(b + more) == Longer(ReadChar(b), more)
  {
    hide ReadUnicodeEscape, DecodeChar;
    assert (b + more)[0] == b[0];
    if b[0] == BACKSLASH {
      assert (b + more)[1..] == b[1..] + more;
      assert (b[1..] + more)[0] == b[1..][0];
      assert (b[1..] + more)[1..] == b[1..][1..] + more;
      if b[1] == 0x75 {
        UnicodeEscapeMore(b[1..][1..], more);
      }
    } else {
      DecodeMore(b, more);
    }
  }

  lemma DecodeMore(b: Bytes, more: Bytes)
    requires DecodeChar(b).Some?
    ensures DecodeChar(b + more) == Longer(DecodeChar(b), more)
  {
    var c := b + more;
    assert c[0] == b[0];
    var k := |b| - |DecodeChar(b).value.rest|;
    assert DecodeChar(b).value.rest == b[k..];
    assert c[k..] == b[k..] + more;
    assert forall i :: 1 <= i < k ==> Continuation(c, i) == Continuation(b, i);
  }

  lemma {:induction false} CharsMore(b: Bytes, more: Bytes)
    requires ReadChars(b).Some?
    ensures ReadChars(b + more) == Longer(ReadChars(b), more)
    decreases |b|
  {
    hide ReadChar;
    assert (b + more)[0] == b[0];
    if b[0] == QUOTE {
      assert (b + more)[1..] == b[1..] + more;
    } else {
      CharMore(b, more);
      CharsMore(ReadChar(b).value.rest, more);
    }
  }

  /** Of a number only once something follows it. */
  lemma MagnitudeMore(d: Bytes, more: Bytes)
    requires ReadMagnitude(d).Some? && ReadMagnitude(d).value.rest != []
    ensures ReadMagnitude(d + more) == Longer(ReadMagnitude(d), more)
  {
    hide DigitRun;
    var k := DigitRun(d);
    assert d == d[..k] + d[k..];
    assert d + more == d[..k] + (d[k..] + more);
    DigitRunOf(d[..k], d[k..] + more);
    assert (d + more)[..k] == d[..k] && (d + more)[k..] == d[k..] + more;
  }

  lemma NumberMore(b: Bytes, more: Bytes)
    requires ReadNumber(b).Some? && ReadNumber(b).value.rest != []
    ensures ReadNumber(b + more) == Longer(ReadNumber(b), more)
  {
    hide ReadMagnitude;
    if b != [] {
      assert (b + more)[0] == b[0] && (b + more)[1..] == b[1..] + more;
    }
    MagnitudeMore(if b != [] && b[0] == 0x2D then b[1..] else b, more);
  }

  lemma WordMore(word: Bytes, v: Json, b: Bytes, more: Bytes)
    requires word != [] && ReadWord(word, v, b).Some?
    ensures ReadWord(word, v, b + more) == Longer(ReadWord(word, v, b), more)
  {
    assert (b + more)[|word|..] == b[|word|..] + more;
  }

  ghost predicate Closed(r: Option<Parsed<Json>>) {
    r.Some? && (r.value.rest != [] || !r.value.value.Number?)
  }

  lemma {:induction false} ValueMore(b: Bytes, limit: nat, more: Bytes)
    requires Closed(ReadValue(b, limit))
    ensures ReadValue(b + more, limit) == Longer(ReadValue(b, limit), more)
    decreases |b|, 0
  {
    hide ReadChars, ReadNumber, ReadWord, ReadItems, ReadMembers;
    var c := b + more;
    assert c[0] == b[0] && c[1..] == b[1..] + more;
    if b[0] == 0x6E {
      WordMore(NULL, Null, b, more);
    } else if b[0] == 0x74 {
      WordMore(TRUE, Bool(true), b, more);
    } else if b[0] == 0x66 {
      WordMore(FALSE, Bool(false), b, more);
    } else if b[0] == QUOTE {
      CharsMore(b[1..], more);
    } else if b[0] == 0x5B || b[0] == 0x7B {
      BracketMore(b, limit, more);
    } else {
      NumberReads(b);
      NumberMore(b, more);
    }
  }

  lemma NumberReads(b: Bytes)
    requires ReadNumber(b).Some?
    ensures ReadNumber(b).value.value.Number?
  {
  }

  lemma {:induction false} BracketMore(b: Bytes, limit: nat, more: Bytes)
    requires b != [] && (b[0] == 0x5B || b[0] == 0x7B) && ReadValue(b, limit).Some?
    ensures ReadValue(b + more, limit) == Longer(ReadValue(b, limit), more)
    decreases |b| - 1, 2
  {
    hide ReadItems, ReadMembers;
    var c := b + more;
    assert c[0] == b[0] && c[1..] == b[1..] + more;
    if |b| > 1 {
      assert c[1] == b[1] && c[2..] == b[2..] + more;
    }
    if b[0] == 0x5B && !(|b| > 1 && b[1] == 0x5D) {
      assert |b| > 1 by { SomethingInside(b, limit); }
      ItemsMore(b[1..], limit - 1, more);
    } else if b[0] == 0x7B && !(|b| > 1 && b[1] == 0x7D) {
      assert |b| > 1 by { SomethingInside(b, limit); }
      MembersMore(b[1..], limit - 1, map[], more);
    }
  }

  lemma SomethingInside(b: Bytes, limit: nat)
    requires b != [] && (b[0] == 0x5B || b[0] == 0x7B) && ReadValue(b, limit).Some?
    ensures |b| > 1
  {
    if |b| == 1 {
      assert b[1..] == [];
    }
  }

  lemma {:induction false} ItemsMore(b: Bytes, limit: nat, more: Bytes)
    requires ReadItems(b, limit).Some?
    ensures ReadItems(b + more, limit) == Longer(ReadItems(b, limit), more)
    decreases |b|, 1
  {
    hide ReadValue;
    ValueMore(b, limit, more);
    var rest := ReadValue(b, limit).value.rest;
    assert (rest + more)[0] == rest[0] && (rest + more)[1..] == rest[1..] + more;
    if rest[0] == COMMA {
      ItemsMore(rest[1..], limit, more);
    }
  }

  lemma {:induction false} MembersMore(b: Bytes, limit: nat, acc: map<string, Json>, more: Bytes)
    requires ReadMembers(b, limit, acc).Some?
    ensures ReadMembers(b + more, limit, acc) == Longer(ReadMembers(b, limit, acc), more)
    decreases |b|, 1
  {
    hide ReadValue, ReadChars;
    assert (b + more)[0] == b[0] && (b + more)[1..] == b[1..] + more;
    CharsMore(b[1..], more);
    var k := ReadChars(b[1..]).value;
    assert (k.rest + more)[0] == k.rest[0] && (k.rest + more)[1..] == k.rest[1..] + more;
    ValueMore(k.rest[1..], limit, more);
    var v := ReadValue(k.rest[1..], limit).value;
    assert (v.rest + more)[0] == v.rest[0] && (v.rest + more)[1..] == v.rest[1..] + more;
    if v.rest[0] == COMMA {
      MembersMore(v.rest[1..], limit, acc[k.value := v.value], more);
    }
  }

  // -- cut-off documents -----------------------------------------------------------------------------

  /** No proper prefix of a printed value parses, whatever the nesting limit; but for numbers. */
  lemma CutOff(v: Json, e: Escaping, limit: nat, n: nat)
    requires n < |Print(v, e)| && !v.Number?
    ensures ParseDocument(Print(v, e)[..n], limit) == None
  {
    hide Print, ReadValue;
    var (b, more) := (Print(v, e)[..n], Print(v, e)[n..]);
    var r := ReadValue(b, limit);
    if r.Some? && r.value.rest == [] {
      assert b + more == Print(v, e);
      NoNumber(v, e, b, limit);
      ValueMore(b, limit, more);
      DocumentRoundTrip(v, e, limit);
      assert r.value.rest + more == more;
      assert false by { ReadsWhole(v, e, limit); }
    }
  }

  /** Nor does a printed value with anything behind it. */
  lemma NothingBehind(v: Json, e: Escaping, limit: nat, more: Bytes)
    requires more != [] && !ExtendsNumber(more)
    ensures ParseDocument(Print(v, e) + more, limit) == None
  {
    hide Print, ReadValue, Fits;
    ReadPrinted(v, e, limit, more);
  }

  lemma ReadsWhole(v: Json, e: Escaping, limit: nat)
    ensures ReadValue(Print(v, e), limit).Some? ==> ReadValue(Print(v, e), limit).value.rest == []
  {
    hide Print, ReadValue, Fits;
    ReadPrinted(v, e, limit, []);
    assert Print(v, e) + [] == Print(v, e);
  }

  lemma NoNumber(v: Json, e: Escaping, b: Bytes, limit: nat)
    requires b <= Print(v, e) && !v.Number? && ReadValue(b, limit).Some?
    ensures !ReadValue(b, limit).value.value.Number?
  {
    assert b[0] == Print(v, e)[0];
  }

  // -- lengths cast to 32 bits -----------------------------------------------------------------------

  lemma {:induction false} DecimalLength(n: nat, k: nat)
    requires k >= 1 && n < Pow10(k)
    ensures |Decimal(n)| <= k
  {
    if n >= 10 {
      DecimalLength(n / 10, k - 1);
    }
  }

  lemma NumbersAreShort(n: JsonInt)
    ensures |PrintInt(n)| <= 21
  {
    assert Pow10(20) == 100_000_000_000_000_000_000 by {
      assert Pow10(5) == 100_000 && Pow10(10) == 10_000_000_000 && Pow10(15) == 1_000_000_000_000_000;
    }
    DecimalLength(if n < 0 then -n else n, 20);
  }

  /** What a reader finds behind a length that was cast to `u32`: the document if its length survived
      the cast and it nests within the limit, and nothing that parses otherwise. */
  lemma CastDocument(v: Json, e: Escaping, limit: nat)
    ensures ParseDocument(Print(v, e)[..AsU32(|Print(v, e)|)], limit)
         == if |Print(v, e)| < U32_SIZE && Fits(v, limit) then Some(v) else None
  {
    hide Print, ReadValue, Fits, ParseDocument;
    var b := Print(v, e);
    if |b| < U32_SIZE {
      assert b[..|b|] == b;
      DocumentRoundTrip(v, e, limit);
    } else {
      assert !v.Number? by { LongIsNoNumber(v, e); }
      CutOff(v, e, limit, AsU32(|b|));
    }
  }

  lemma LongIsNoNumber(v: Json, e: Escaping)
    requires |Print(v, e)| >= U32_SIZE
    ensures !v.Number?
  {
    if v.Number? {
      NumbersAreShort(v.n);
    }
  }
}
