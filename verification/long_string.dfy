/**
 * The `LongString` codec of contracts/src/LongString.ts: a string of any length,
 * cut into `CircuitString` chunks of 127 characters, flattened to one field
 * element per character, regrouped and concatenated back, and hashed.
 *
 * Modelling assumptions:
 * - A field element is represented by its canonical value, a `nat`.
 * - A string is a sequence of UTF-16 code units, as JavaScript counts it.
 * - A code unit's field element is its value (`Enc`), with no padding, so a
 *   chunk of k units yields exactly k fields, as `sizeInFields` assumes.
 * - Decoding a field that is not a code unit fails with `NotACharCode`; this
 *   failure is the model's own choice for fields with no preimage.
 * - `Poseidon.hash` is an arbitrary function `h` passed in by the caller.
 */
module LongStringCodec {
  import opened Wrappers
  import opened Seqs

  /** Characters per `CircuitString` chunk: the literal 127 of `split` and `merge`. */
  const ChunkLen: nat := 127

  /** A field element, by its canonical representative. */
  type Field = nat

  /** A JavaScript string is a sequence of UTF-16 code units: `length`,
      `substring` and the per-character encoding all count these units. */
  newtype CodeUnit = u: int | 0 <= u < 0x1_0000

  type JsString = seq<CodeUnit>

  /** The class `LongString`, an immutable wrapper around its `value`. */
  datatype LongString = LongString(value: JsString)

  /** The argument of `fromValue`: a plain string or an existing `LongString`. */
  datatype ValueOrLongString = Plain(s: JsString) | Wrapped(ls: LongString)

  datatype CodecError = NotACharCode(field: Field)

  // ---------------------------------------------------------------------------
  // Characters and fields
  // ---------------------------------------------------------------------------

  /** The field values that denote a character: the UTF-16 code units. */
  predicate IsCharCode(f: Field) {
    f < 0x1_0000
  }

  predicate AllCharCodes(fs: seq<Field>) {
    forall i :: 0 <= i < |fs| ==> IsCharCode(fs[i])
  }

  /** Field element of one character (the per-character `Character` encoding). */
  function Enc(c: CodeUnit): (f: Field)
    ensures IsCharCode(f)
  {
    c as nat
  }

  /** Character of one field element; the inverse of `Enc`. */
  function DecodeChar(f: Field): (r: Result<CodeUnit, CodecError>)
    ensures r.Ok? <==> IsCharCode(f)
    ensures r.Ok? ==> Enc(r.value) == f
    ensures r.Err? ==> r.error == NotACharCode(f)
  {
    if IsCharCode(f) then Ok(f as CodeUnit) else Err(NotACharCode(f))
  }

  /** Field elements of a string, one per character, in order. */
  function EncodeString(s: JsString): seq<Field> {
    seq(|s|, i requires 0 <= i < |s| => Enc(s[i]))
  }

  /** Characters of a field sequence; fails on the first field that is not a code unit. */
  function DecodeString(fs: seq<Field>): (r: Result<JsString, CodecError>)
    ensures r.Ok? <==> AllCharCodes(fs)
    ensures r.Ok? ==> EncodeString(r.value) == fs
    ensures r.Err? ==> exists i :: 0 <= i < |fs| && r.error == NotACharCode(fs[i]) && !IsCharCode(fs[i])
    decreases |fs|
  {
    if |fs| == 0 then Ok([])
    else
      match DecodeChar(fs[0])
      case Err(e) => Err(e)
      case Ok(c) =>
        match DecodeString(fs[1..])
        case Err(e) =>
          assert !AllCharCodes(fs[1..]);
          Err(e)
        case Ok(rest) =>
          assert fs == [fs[0]] + fs[1..];
          Ok([c] + rest)
  }

  lemma EncodeStringAppend(a: JsString, b: JsString)
    ensures EncodeString(a + b) == EncodeString(a) + EncodeString(b)
  {
  }

  lemma EncodeStringInjective(a: JsString, b: JsString)
    requires EncodeString(a) == EncodeString(b)
    ensures a == b
  {
    assert |a| == |EncodeString(a)| && |b| == |EncodeString(b)|;
    forall i | 0 <= i < |a|
      ensures a[i] == b[i]
    {
      assert Enc(a[i]) == EncodeString(a)[i] == EncodeString(b)[i] == Enc(b[i]);
      assert DecodeChar(Enc(a[i])).value == a[i];
    }
  }

  /** Decoding undoes the per-character encoding. */
  lemma DecodeEncodeString(s: JsString)
    ensures DecodeString(EncodeString(s)) == Ok(s)
  {
    var r := DecodeString(EncodeString(s));
    assert r.Ok?;
    EncodeStringInjective(r.value, s);
  }

  // ---------------------------------------------------------------------------
  // Construction and concatenation
  // ---------------------------------------------------------------------------

  /** `fromString`: the `LongString` of a string, whose fields are that string's encoding. */
  function FromString(x: JsString): (ls: LongString)
    ensures ToFields(ls) == EncodeString(x)
    ensures SizeInFields(ls) == |x|
  {
    LongString(x)
  }

  /** `empty()`: the value with no fields. */
  function Empty(): (e: LongString)
    ensures ToFields(e) == [] && SizeInFields(e) == 0
  {
    FromString([])
  }

  /** `append`: the fields of the result are those of `a` followed by those of `b`. */
  function Append(a: LongString, b: LongString): (r: LongString)
    ensures ToFields(r) == ToFields(a) + ToFields(b)
    ensures SizeInFields(r) == SizeInFields(a) + SizeInFields(b)
  {
    EncodeStringAppend(a.value, b.value);
    FromString(a.value + b.value)
  }

  /** `append` is associative with `empty()` as its identity on both sides, and
      the field encoding of a concatenation is the concatenation of the encodings. */
  lemma AppendLaws(a: LongString, b: LongString, c: LongString)
    ensures Append(Append(a, b), c) == Append(a, Append(b, c))
    ensures Append(Empty(), a) == a && Append(a, Empty()) == a
    ensures ToFields(Append(a, b)) == ToFields(a) + ToFields(b)
  {
    assert a.value + b.value + c.value == a.value + (b.value + c.value);
    assert [] + a.value == a.value && a.value + [] == a.value;
    EncodeStringAppend(a.value, b.value);
  }

  // ---------------------------------------------------------------------------
  // split and toFields
  // ---------------------------------------------------------------------------

  /** Number of loop iterations of `split`: the i with `127 * i < length`. */
  function NumChunks(n: nat): nat {
    (n + ChunkLen - 1) / ChunkLen
  }

  lemma NumChunksBounds(n: nat, i: nat)
    ensures i < NumChunks(n) <==> ChunkLen * i < n
  {
  }

  /** The i-th chunk, `substring(127 * i, 127 * (i + 1))`; JavaScript clamps the end to the length. */
  function Chunk(s: JsString, i: nat): JsString
    requires ChunkLen * i < |s|
  {
    s[ChunkLen * i .. Min(ChunkLen * (i + 1), |s|)]
  }

  /** `split`: the chunks of at most 127 characters covering the value. */
  function Split(s: JsString): (chunks: seq<JsString>)
    ensures |s| == 0 <==> |chunks| == 0
    ensures |chunks| > 0 ==> ChunkLen * (|chunks| - 1) < |s| <= ChunkLen * |chunks|
    ensures forall i :: 0 <= i < |chunks| ==> 0 < |chunks[i]| <= ChunkLen
    ensures forall i :: 0 <= i < |chunks| - 1 ==> |chunks[i]| == ChunkLen
  {
    var count := NumChunks(|s|);
    seq(count, i requires 0 <= i < count => NumChunksBounds(|s|, i); Chunk(s, i))
  }

  /** Flattening the first k of a run of consecutive 127-character slices of `s`
      gives the prefix of `s` they cover. */
  lemma {:induction false} FlattenSlicesPrefix(s: JsString, gs: seq<JsString>, k: nat)
    requires k <= |gs|
    requires forall j :: 0 <= j < |gs| ==>
      ChunkLen * j <= |s| && gs[j] == s[ChunkLen * j .. Min(ChunkLen * (j + 1), |s|)]
    ensures Flatten(gs[..k]) == s[..Min(ChunkLen * k, |s|)]
    decreases k
  {
    if k > 0 {
      FlattenSlicesPrefix(s, gs, k - 1);
      assert gs[..k][..k - 1] == gs[..k - 1];
      var lo := ChunkLen * (k - 1);
      var hi := Min(ChunkLen * k, |s|);
      assert Flatten(gs[..k]) == s[..lo] + s[lo..hi];
      assert s[..lo] + s[lo..hi] == s[..hi];
    }
  }

  /** The chunks of `split` concatenate back to the original value. */
  lemma SplitConcat(s: JsString)
    ensures Flatten(Split(s)) == s
  {
    var chunks := Split(s);
    forall j | 0 <= j < |chunks|
      ensures ChunkLen * j <= |s| && chunks[j] == s[ChunkLen * j .. Min(ChunkLen * (j + 1), |s|)]
    {
      NumChunksBounds(|s|, j);
    }
    FlattenSlicesPrefix(s, chunks, |chunks|);
    assert chunks[..|chunks|] == chunks;
  }

  /** `CircuitString.toFields` applied to every chunk. */
  function EncodeChunks(chunks: seq<JsString>): seq<seq<Field>> {
    seq(|chunks|, i requires 0 <= i < |chunks| => EncodeString(chunks[i]))
  }

  lemma {:induction false} FlattenEncodeChunks(chunks: seq<JsString>)
    ensures Flatten(EncodeChunks(chunks)) == EncodeString(Flatten(chunks))
    decreases |chunks|
  {
    if |chunks| > 0 {
      var init := chunks[..|chunks| - 1];
      assert EncodeChunks(chunks)[..|chunks| - 1] == EncodeChunks(init);
      FlattenEncodeChunks(init);
      EncodeStringAppend(Flatten(init), chunks[|chunks| - 1]);
    }
  }

  /** `toFields`: the per-chunk encodings, flattened in order. Because no chunk
      is padded, this is the per-character encoding of the whole value. */
  function ToFields(ls: LongString): (fs: seq<Field>)
    ensures fs == EncodeString(ls.value)
    ensures |fs| == |ls.value|
  {
    var chunks := Split(ls.value);
    FlattenEncodeChunks(chunks);
    SplitConcat(ls.value);
    Flatten(EncodeChunks(chunks))
  }

  /** `sizeInFields`: the number of fields `toFields` produces. */
  function SizeInFields(ls: LongString): (n: nat)
    ensures n == |ToFields(ls)|
  {
    |ls.value|
  }

  /** Different values have different field encodings. */
  lemma ToFieldsInjective(a: LongString, b: LongString)
    ensures ToFields(a) == ToFields(b) <==> a == b
  {
    if ToFields(a) == ToFields(b) {
      EncodeStringInjective(a.value, b.value);
    }
  }

  // ---------------------------------------------------------------------------
  // merge and fromFields, as written
  // ---------------------------------------------------------------------------

  /** The groups `merge` pushes: each complete run of 127 characters, in order. */
  function FullGroups(cs: JsString): (gs: seq<JsString>)
    ensures |gs| == |cs| / ChunkLen
    ensures forall j :: 0 <= j < |gs| ==> |gs[j]| == ChunkLen
  {
    var count := |cs| / ChunkLen;
    seq(count, j requires 0 <= j < count => cs[ChunkLen * j .. ChunkLen * (j + 1)])
  }

  /** The full groups concatenate to the longest prefix whose length is a multiple of 127. */
  lemma FullGroupsConcat(cs: JsString)
    ensures Flatten(FullGroups(cs)) == cs[..ChunkLen * (|cs| / ChunkLen)]
  {
    var gs := FullGroups(cs);
    FlattenSlicesPrefix(cs, gs, |gs|);
    assert gs[..|gs|] == gs;
  }

  lemma DivModUnique(n: nat, q: nat, r: nat)
    requires n == ChunkLen * q + r && r < ChunkLen
    ensures n / ChunkLen == q && n % ChunkLen == r
  {
  }

  /** The loop of `merge`: characters accumulate into the current group, and a
      group is pushed when it reaches 127. Returns the pushed groups and the
      partial group left over when the loop ends. */
  method CollectGroups(chars: JsString) returns (strings: seq<JsString>, current: JsString)
    ensures strings == FullGroups(chars)
    ensures current == chars[ChunkLen * |strings| ..] && |current| < ChunkLen
  {
    strings := [];
    current := [];
    var i: nat := 0;
    for k := 0 to |chars|
      invariant i < ChunkLen
      invariant k == ChunkLen * |strings| + i
      invariant current == chars[k - i .. k]
      invariant forall j :: 0 <= j < |strings| ==> strings[j] == chars[ChunkLen * j .. ChunkLen * (j + 1)]
    {
      current := current + [chars[k]];
      i := i + 1;
      if i == ChunkLen {
        i := 0;
        strings := strings + [current];
        current := [];
      }
    }
    DivModUnique(|chars|, |strings|, i);
  }

  /** `merge`: every field becomes a character, then the loop groups them; the
      partial group left at the end is never pushed. */
  method Merge(fields: seq<Field>) returns (r: Result<seq<JsString>, CodecError>)
    ensures r.Ok? <==> AllCharCodes(fields)
    ensures r.Ok? ==> |r.value| == |fields| / ChunkLen
    ensures r.Ok? ==> r.value == FullGroups(DecodeString(fields).value)
    ensures r.Err? ==> r == Err(DecodeString(fields).error)
  {
    var chars :- DecodeString(fields);
    var strings, _ := CollectGroups(chars);
    return Ok(strings);
  }

  /** `fromFields`: the groups of `merge`, concatenated. */
  function FromFields(fields: seq<Field>): (r: Result<LongString, CodecError>)
    ensures r.Ok? <==> AllCharCodes(fields)
    ensures r.Ok? ==> |r.value.value| == |fields| - |fields| % ChunkLen
    ensures r.Ok? ==> ToFields(r.value) == fields[..|fields| - |fields| % ChunkLen]
  {
    var chars :- DecodeString(fields);
    FullGroupsConcat(chars);
    assert EncodeString(chars[..ChunkLen * (|chars| / ChunkLen)])
        == EncodeString(chars)[..ChunkLen * (|chars| / ChunkLen)];
    Ok(FromString(Flatten(FullGroups(chars))))
  }

  /** The concatenation loop of `fromFields`: each group is appended, in order, to `empty()`. */
  method AppendGroups(groups: seq<JsString>) returns (ls: LongString)
    ensures ls.value == Flatten(groups)
  {
    ls := Empty();
    for k := 0 to |groups|
      invariant ls.value == Flatten(groups[..k])
    {
      ls := Append(ls, FromString(groups[k]));
      assert groups[..k + 1][..k] == groups[..k];
    }
    assert groups[..|groups|] == groups;
  }

  /** `fromFields` as the code runs it: the `merge` loop, then the append loop. */
  method FromFieldsLoop(fields: seq<Field>) returns (r: Result<LongString, CodecError>)
    ensures r == FromFields(fields)
  {
    var groups :- Merge(fields);
    var ls := AppendGroups(groups);
    return Ok(ls);
  }

  /** Decoding the encoding of a value keeps exactly its whole 127-character chunks. */
  lemma FromFieldsToFields(ls: LongString)
    ensures FromFields(ToFields(ls)) == Ok(FromString(ls.value[..|ls.value| - |ls.value| % ChunkLen]))
  {
    var n := |ls.value|;
    var r := FromFields(ToFields(ls));
    assert AllCharCodes(ToFields(ls));
    assert ToFields(r.value) == EncodeString(ls.value)[..n - n % ChunkLen]
                             == EncodeString(ls.value[..n - n % ChunkLen]);
    EncodeStringInjective(r.value.value, ls.value[..n - n % ChunkLen]);
  }

  /** The round trip through the fields restores a value exactly when its length
      is a multiple of 127. */
  lemma RoundTripIff(ls: LongString)
    ensures FromFields(ToFields(ls)) == Ok(ls) <==> |ls.value| % ChunkLen == 0
  {
    FromFieldsToFields(ls);
    assert |ls.value| % ChunkLen == 0 ==> ls.value[..|ls.value|] == ls.value;
  }

  /** A one-character value does not survive the round trip: it decodes to the empty string. */
  lemma TrailingChunkDropped()
    ensures ToFields(FromString([97])) == [97]
    ensures FromFields(ToFields(FromString([97]))) == Ok(Empty())
  {
    FromFieldsToFields(FromString([97]));
  }

  /** A character outside the Basic Multilingual Plane is two code units, so
      with 126 more units the value is 128 units long and loses its last unit. */
  lemma SurrogatePairCountsTwice()
    ensures var s: JsString := [0xD83D, 0xDE00] + seq(126, _ => 97);
      |s| == 128 && FromFields(ToFields(FromString(s))) == Ok(FromString(s[..127]))
  {
    var s: JsString := [0xD83D, 0xDE00] + seq(126, _ => 97);
    FromFieldsToFields(FromString(s));
  }

  // ---------------------------------------------------------------------------
  // merge and fromFields, corrected
  // ---------------------------------------------------------------------------

  /** `merge` with the trailing partial group pushed after the loop: it regroups
      the characters exactly as `split` cut them. */
  method MergeFixed(fields: seq<Field>) returns (r: Result<seq<JsString>, CodecError>)
    ensures r.Ok? <==> AllCharCodes(fields)
    ensures r.Ok? ==> r.value == Split(DecodeString(fields).value)
    ensures r.Err? ==> r == Err(DecodeString(fields).error)
  {
    var chars :- DecodeString(fields);
    var strings, current := CollectGroups(chars);
    if |current| > 0 {
      strings := strings + [current];
    }
    var expected := Split(chars);
    assert |strings| == |expected|;
    forall j | 0 <= j < |strings|
      ensures strings[j] == expected[j]
    {
      NumChunksBounds(|chars|, j);
    }
    return Ok(strings);
  }

  /** `fromFields` over the corrected regrouping. */
  function FromFieldsFixed(fields: seq<Field>): (r: Result<LongString, CodecError>)
    ensures r.Ok? <==> AllCharCodes(fields)
    ensures r.Ok? ==> ToFields(r.value) == fields
  {
    var chars :- DecodeString(fields);
    SplitConcat(chars);
    Ok(FromString(Flatten(Split(chars))))
  }

  /** Corrected `fromFields` as the code would run it: `MergeFixed`, then the append loop. */
  method FromFieldsFixedLoop(fields: seq<Field>) returns (r: Result<LongString, CodecError>)
    ensures r == FromFieldsFixed(fields)
  {
    var groups :- MergeFixed(fields);
    var ls := AppendGroups(groups);
    return Ok(ls);
  }

  /** With the corrected regrouping every value survives the round trip. */
  lemma FixedRoundTrip(ls: LongString)
    ensures FromFieldsFixed(ToFields(ls)) == Ok(ls)
  {
    var r := FromFieldsFixed(ToFields(ls));
    assert AllCharCodes(ToFields(ls));
    ToFieldsInjective(r.value, ls);
  }

  // ---------------------------------------------------------------------------
  // Hashing and value conversion
  // ---------------------------------------------------------------------------

  /** `hash`: the hash function applied to the value's fields. */
  function Hash(ls: LongString, h: seq<Field> -> Field): (d: Field)
    ensures d == h(EncodeString(ls.value))
  {
    h(ToFields(ls))
  }

  /** `hashWithSalt`: the salt is hashed in front of the value's fields. */
  function HashWithSalt(ls: LongString, salt: Field, h: seq<Field> -> Field): (d: Field)
    ensures d == h([salt] + EncodeString(ls.value))
  {
    h([salt] + ToFields(ls))
  }

  /** The salted hash input determines both the salt and the value, so equal
      inputs to the hash arise only from equal (salt, value) pairs. */
  lemma SaltedHashInputInjective(a: LongString, b: LongString, s1: Field, s2: Field)
    ensures [s1] + ToFields(a) == [s2] + ToFields(b) <==> s1 == s2 && a == b
  {
    if [s1] + ToFields(a) == [s2] + ToFields(b) {
      assert s1 == ([s1] + ToFields(a))[0];
      assert ToFields(a) == ([s1] + ToFields(a))[1..];
      assert ToFields(b) == ([s2] + ToFields(b))[1..];
      ToFieldsInjective(a, b);
    }
  }

  /** The hash of a concatenation is the hash of the concatenated encodings. */
  lemma HashAppend(a: LongString, b: LongString, salt: Field, h: seq<Field> -> Field)
    ensures Hash(Append(a, b), h) == h(ToFields(a) + ToFields(b))
    ensures HashWithSalt(Append(a, b), salt, h) == h([salt] + ToFields(a) + ToFields(b))
  {
    AppendLaws(a, b, Empty());
    assert [salt] + (ToFields(a) + ToFields(b)) == [salt] + ToFields(a) + ToFields(b);
  }

  /** `toValue` ignores its argument and returns the receiver's string. */
  function ToValue(self: LongString, x: LongString): (v: JsString)
    ensures FromString(v) == self
    ensures |v| == SizeInFields(self)
  {
    self.value
  }

  /** `fromValue` keeps a `LongString` as it is and wraps a plain string. */
  function FromValue(self: LongString, x: ValueOrLongString): (r: LongString)
    ensures x.Wrapped? ==> r == x.ls
    ensures x.Plain? ==> ToValue(r, self) == x.s && ToFields(r) == EncodeString(x.s)
  {
    match x
    case Wrapped(ls) => ls
    case Plain(s) => FromString(s)
  }

  /** `toValue` and `fromValue` are inverse conversions. */
  lemma ValueRoundTrip(self: LongString, ls: LongString, s: JsString, other: LongString)
    ensures ToValue(FromValue(self, Plain(s)), other) == s
    ensures FromValue(self, Plain(ToValue(ls, other))) == ls
    ensures FromValue(self, Wrapped(ls)) == ls
  {
  }
}
