/** kernel/src/lm_qwen_tok.rs: the greedy longest-match tokenizer.  Text is its UTF-8 bytes. */
module QwenTok {
  import opened Bits
  import opened Prelude

  const EOS_TOKEN: nat := 151645
  const BOS_TOKEN: nat := 151644
  const MAX_INDEXED: nat := 48

  type Bytes = seq<byte>
  type Table = map<seq<byte>, nat>

  datatype Vocab = Vocab(idToBytes: seq<Bytes>, bytesToId: Table)

  predicate Indexable(b: Bytes) { 1 <= |b| <= MAX_INDEXED }

  /** The table holds exactly the indexable entries, each under the last identifier that spells it. */
  ghost predicate Indexes(t: Table, entries: seq<Bytes>, n: nat)
    requires n <= |entries|
  {
    && (forall b :: b in t ==> Indexable(b) && t[b] < n && entries[t[b]] == b)
    && (forall k :: 0 <= k < n && Indexable(entries[k]) ==> entries[k] in t && k <= t[entries[k]])
  }

  /** A loaded vocabulary whose identifiers fit in 32 bits. */
  ghost predicate Loaded(v: Vocab) {
    |v.idToBytes| <= U32 && Indexes(v.bytesToId, v.idToBytes, |v.idToBytes|)
  }

  predicate Stops(id: nat) { id == EOS_TOKEN || id == BOS_TOKEN }

  // ----- What encoding and decoding mean ------------------------------------------------

  predicate Indexed(t: Table, text: Bytes, len: nat) { len <= |text| && text[..len] in t }

  /** The longest of the first `len` lengths at which a prefix of the text is indexed; zero when none is. */
  function Match(t: Table, text: Bytes, len: nat): (r: nat)
    requires len <= |text|
    ensures r <= len && (r > 0 ==> Indexed(t, text, r))
    ensures forall m :: r < m <= len ==> !Indexed(t, text, m)
  {
    if len == 0 || Indexed(t, text, len) then len else Match(t, text, len - 1)
  }

  function Window(text: Bytes): nat { if |text| < MAX_INDEXED then |text| else MAX_INDEXED }

  function Longest(t: Table, text: Bytes): nat { Match(t, text, Window(text)) }

  /** The first token of a text: the longest indexed prefix, or else the byte itself. */
  function Token(t: Table, text: Bytes): nat
    requires text != []
  {
    var len := Longest(t, text);
    if len > 0 then t[text[..len]] else text[0]
  }

  /** The number of bytes the first token stands for. */
  function Width(t: Table, text: Bytes): (w: nat)
    requires text != []
    ensures 1 <= w <= |text|
  {
    var len := Longest(t, text);
    if len > 0 then len else 1
  }

  function Encoding(t: Table, text: Bytes): seq<nat> {
    if text == [] then [] else [Token(t, text)] + Encoding(t, text[Width(t, text)..])
  }

  function Spelling(v: Vocab, id: nat): Bytes {
    if id < |v.idToBytes| then v.idToBytes[id] else []
  }

  function Decoding(v: Vocab, ids: seq<nat>): Bytes {
    if ids == [] || Stops(ids[0]) then [] else Spelling(v, ids[0]) + Decoding(v, ids[1..])
  }

  /** Decoding the encoding of a text. */
  ghost function Trip(v: Vocab, text: Bytes): Bytes { Decoding(v, Encoding(v.bytesToId, text)) }

  /** No position of the text's segmentation falls back to a byte and none is a stop token. */
  ghost predicate Clean(t: Table, text: Bytes) {
    text != [] ==> Longest(t, text) > 0 && !Stops(Token(t, text)) && Clean(t, text[Width(t, text)..])
  }

  // ----- Greedy choice ------------------------------------------------------------------

  /** No indexed entry that begins the text is longer than the chosen one. */
  lemma {:induction false} LongestIsLongest(v: Vocab, text: Bytes, b: Bytes)
    requires Loaded(v) && b in v.bytesToId && b <= text
    ensures |b| <= Longest(v.bytesToId, text)
  {
    assert b == text[..|b|];
    assert Indexed(v.bytesToId, text, |b|);
  }

  // ----- Round trip -----------------------------------------------------------------------

  lemma {:induction false} TripHead(v: Vocab, text: Bytes)
    requires text != []
    ensures var t := v.bytesToId; var id := Token(t, text);
      Trip(v, text) == if Stops(id) then [] else Spelling(v, id) + Trip(v, text[Width(t, text)..])
  {
    assert Encoding(v.bytesToId, text)[1..] == Encoding(v.bytesToId, text[Width(v.bytesToId, text)..]);
  }

  lemma {:induction false} CleanRoundTrip(v: Vocab, text: Bytes)
    requires Loaded(v) && Clean(v.bytesToId, text)
    ensures Trip(v, text) == text
  {
    if text != [] {
      var rest := text[Width(v.bytesToId, text)..];
      assert Trip(v, text) == text[..Width(v.bytesToId, text)] + Trip(v, rest) by {
        TripHead(v, text);
      }
      CleanRoundTrip(v, rest);
    }
  }

  /** Every fallback token spells something short enough to be indexed. */
  ghost predicate ShortByteTokens(v: Vocab) {
    forall c :: 0 <= c < 256 && c < |v.idToBytes| ==> |v.idToBytes[c]| <= MAX_INDEXED
  }

  /** Decoding any encoding gives nothing, or something that begins with an indexed entry. */
  lemma {:induction false} FirstEmission(v: Vocab, text: Bytes) returns (b: Bytes)
    requires Loaded(v) && ShortByteTokens(v)
    ensures Trip(v, text) == [] || (b in v.bytesToId && b <= Trip(v, text))
  {
    b := [];
    if text != [] {
      TripHead(v, text);
      b := Spelling(v, Token(v.bytesToId, text));
      if Longest(v.bytesToId, text) > 0 {
      } else {
        if b == [] { b := FirstEmission(v, text[1..]); }
      }
    }
  }

  lemma {:induction false} RoundTripClean(v: Vocab, text: Bytes)
    requires Loaded(v) && ShortByteTokens(v) && Trip(v, text) == text
    ensures Clean(v.bytesToId, text)
  {
    if text != [] {
      var b := FirstEmission(v, text);
      LongestIsLongest(v, text, b);
      TripHead(v, text);
      var w := Width(v.bytesToId, text);
      assert Trip(v, text)[w..] == Trip(v, text[w..]);
      RoundTripClean(v, text[w..]);
    }
  }

  /** The round trip on bytes, exactly: they are restored if and only if the segmentation never
      falls back to a byte and never meets a stop token. */
  lemma {:induction false} BytesRoundTripIff(v: Vocab, text: Bytes)
    requires Loaded(v) && ShortByteTokens(v)
    ensures Decoding(v, Encoding(v.bytesToId, text)) == text <==> Clean(v.bytesToId, text)
  {
    if Clean(v.bytesToId, text) { CleanRoundTrip(v, text); }
    if Trip(v, text) == text { RoundTripClean(v, text); }
  }

  // ----- The final conversion ---------------------------------------------------------------

  /** U+FFFD in UTF-8. */
  const REPLACEMENT: Bytes := [0xEF, 0xBF, 0xBD]

  predicate ReplacementAt(b: Bytes, i: nat) { i + 3 <= |b| && b[i..i + 3] == REPLACEMENT }

  predicate HasReplacement(b: Bytes) { exists i :: 0 <= i < |b| && ReplacementAt(b, i) }

  /** `String::from_utf8_lossy`: valid bytes stay as they are, and bytes that do not get a U+FFFD. */
  ghost predicate FromUtf8Lossy(lossy: Bytes -> Bytes, valid: Bytes -> bool) {
    && (forall b :: valid(b) ==> lossy(b) == b)
    && (forall b :: lossy(b) == b || HasReplacement(lossy(b)))
  }

  /** Replacing invalid input as a whole is such a conversion. */
  lemma {:induction false} SimplestConversion(valid: Bytes -> bool)
    ensures FromUtf8Lossy(b => if valid(b) then b else REPLACEMENT, valid)
  {
    assert ReplacementAt(REPLACEMENT, 0);
  }

  /** The round trip of a string, exactly, unless it contains U+FFFD itself. */
  lemma {:induction false} RoundTripIff(v: Vocab, text: Bytes, lossy: Bytes -> Bytes, valid: Bytes -> bool)
    requires Loaded(v) && ShortByteTokens(v) && FromUtf8Lossy(lossy, valid)
    requires valid(text) && !HasReplacement(text)
    ensures lossy(Decoding(v, Encoding(v.bytesToId, text))) == text <==> Clean(v.bytesToId, text)
  {
    BytesRoundTripIff(v, text);
    assert lossy(Trip(v, text)) == text ==> Trip(v, text) == text;
  }

  /** A string with U+FFFD still survives a clean segmentation. */
  lemma {:induction false} CleanStringRoundTrip(v: Vocab, text: Bytes, lossy: Bytes -> Bytes, valid: Bytes -> bool)
    requires Loaded(v) && FromUtf8Lossy(lossy, valid) && valid(text) && Clean(v.bytesToId, text)
    ensures lossy(Decoding(v, Encoding(v.bytesToId, text))) == text
  {
    CleanRoundTrip(v, text);
  }

  /** The string U+FFFD may be restored although every byte falls back: they decode to an invalid
      byte, which the conversion replaces. */
  lemma {:induction false} ReplacementRestored(lossy: Bytes -> Bytes) returns (v: Vocab)
    requires lossy([0xFF]) == REPLACEMENT
    ensures Loaded(v) && ShortByteTokens(v) && !Clean(v.bytesToId, REPLACEMENT)
    ensures lossy(Decoding(v, Encoding(v.bytesToId, REPLACEMENT))) == REPLACEMENT
  {
    v := Vocab(seq(239, _ => []) + [[0xFF]], map[[0xFF] := 239]);
    GarbledTrip(v);
  }

  /** Token 239 spells the byte 255, the others spell nothing. */
  ghost predicate Garbled(v: Vocab) {
    && v.bytesToId == map[[0xFF] := 239] && |v.idToBytes| == 240 && v.idToBytes[239] == [0xFF]
    && forall c :: 0 <= c < 239 ==> v.idToBytes[c] == []
  }

  lemma {:induction false} GarbledTrip(v: Vocab)
    requires Garbled(v)
    ensures Trip(v, REPLACEMENT) == [0xFF] && !Clean(v.bytesToId, REPLACEMENT)
  {
    var one: Bytes, two: Bytes := [0xBD], [0xBF, 0xBD];
    assert Trip(v, []) == [];
    FallbackHead(v, one, []);
    FallbackHead(v, two, one);
    FallbackHead(v, REPLACEMENT, two);
    assert Trip(v, REPLACEMENT) == [0xFF] + ([] + ([] + []));
  }

  lemma {:induction false} FallbackHead(v: Vocab, text: Bytes, rest: Bytes)
    requires v.bytesToId == map[[0xFF] := 239] && text != [] && text[0] != 0xFF && text[1..] == rest
    ensures Longest(v.bytesToId, text) == 0
    ensures Trip(v, text) == Spelling(v, text[0]) + Trip(v, rest)
  {
    assert forall n :: 0 < n <= |text| ==> text[..n][0] != 0xFF;
    TripHead(v, text);
  }

  /** A byte that falls back never has itself as its token's spelling. */
  lemma {:induction false} FallbackNeverItself(v: Vocab, text: Bytes)
    requires Loaded(v) && text != [] && Longest(v.bytesToId, text) == 0
    ensures Spelling(v, Token(v.bytesToId, text)) != [text[0]]
  {
    if Spelling(v, text[0]) == [text[0]] {
      assert Indexable(v.idToBytes[text[0]]);
      LongestIsLongest(v, text, [text[0]]);
    }
  }

  /** A vocabulary of one token spelling "b" loses the text "a". */
  lemma {:induction false} FallbackLoses()
    ensures var v := Vocab([[98]], map[[98] := 0]);
      Loaded(v) && ShortByteTokens(v) && Encoding(v.bytesToId, [97]) == [97] && Decoding(v, [97]) == []
  {
    var v: Vocab := Vocab([[98]], map[[98] := 0]);
    var text: Bytes := [97];
    assert text[..1][0] != 98;
    assert Longest(v.bytesToId, text) == 0;
    assert text[1..] == [];
  }

  // ----- Why the byte tokens must be short ---------------------------------------------------

  /** Forty-nine a's and a b, a text that is also the unindexed spelling of token 98. */
  ghost predicate Lucky(v: Vocab, s: Bytes) {
    && |s| == 50 && s[49] == 98 && (forall k :: 0 <= k < 49 ==> s[k] == 97)
    && v.bytesToId == map[] && |v.idToBytes| == 99 && v.idToBytes[98] == s && v.idToBytes[97] == []
  }

  lemma {:induction false} LuckyTrip(v: Vocab, s: Bytes, i: nat)
    requires Lucky(v, s) && i <= 49
    ensures Trip(v, s[i..]) == s
    decreases 49 - i
  {
    TripHead(v, s[i..]);
    assert s[i..][1..] == s[i + 1..];
    if i < 49 {
      LuckyTrip(v, s, i + 1);
    } else {
      assert s[50..] == [];
    }
  }

  /** With a long byte token the round trip can succeed although every position falls back. */
  lemma {:induction false} LuckyRoundTrip() returns (v: Vocab, s: Bytes)
    ensures Loaded(v) && Decoding(v, Encoding(v.bytesToId, s)) == s && !Clean(v.bytesToId, s)
  {
    s := seq(49, _ => 97) + [98];
    v := Vocab(seq(98, _ => []) + [s], map[]);
    LuckyTrip(v, s, 0);
    assert s[0..] == s;
  }

  // ----- The tokenizer object ------------------------------------------------------------------

  class Tokenizer {
    var vocab: Option<Vocab>

    ghost predicate Valid()
      reads this
    {
      vocab.Some? && |vocab.value.idToBytes| <= U32 ==> Loaded(vocab.value)
    }

    constructor ()
      ensures Valid() && vocab == None
    {
      vocab := None;
    }

    /** `init`: of entries spelled alike the last one is kept for encoding; decoding keeps all. */
    method Init(entries: seq<Bytes>)
      modifies this
      ensures Valid() && vocab.Some? && vocab.value.idToBytes == entries
    {
      var t: Table := map[];
      for id := 0 to |entries|
        invariant |entries| <= U32 ==> Indexes(t, entries, id)
      {
        if |entries[id]| <= MAX_INDEXED && entries[id] != [] { t := t[entries[id] := id % U32]; }
      }
      vocab := Some(Vocab(entries, t));
    }

    /** `encode`. */
    method Encode(text: Bytes) returns (ids: seq<nat>)
      ensures ids == if vocab.None? then [] else Encoding(vocab.value.bytesToId, text)
    {
      if vocab.None? { return []; }
      var t := vocab.value.bytesToId;
      ids := [];
      var i := 0;
      while i < |text|
        invariant i <= |text|
        invariant ids + Encoding(t, text[i..]) == Encoding(t, text)
      {
        var id, w := NextToken(t, text, i);
        ids := ids + [id];
        i := i + w;
      }
    }

    /** The token at position `i` and the bytes it stands for. */
    method NextToken(t: Table, text: Bytes, i: nat) returns (id: nat, w: nat)
      requires i < |text|
      ensures id == Token(t, text[i..]) && w == Width(t, text[i..])
    {
      var len := LongestFrom(t, text, i);
      assert text[i..][..len] == text[i..i + len];
      if len > 0 {
        id, w := t[text[i..i + len]], len;
      } else {
        id, w := text[i], 1;
      }
    }

    /** The search for the longest chunk, from the longest length down. */
    method LongestFrom(t: Table, text: Bytes, i: nat) returns (len: nat)
      requires i < |text|
      ensures len == Longest(t, text[i..])
    {
      len := Window(text[i..]);
      while len > 0 && text[i..i + len] !in t
        invariant i + len <= |text|
        invariant Match(t, text[i..], len) == Longest(t, text[i..])
      {
        assert text[i..][..len] == text[i..i + len];
        len := len - 1;
      }
      assert text[i..][..len] == text[i..i + len];
    }

    /** `decode`; `lossy` is the final conversion to a string. */
    method Decode(ids: seq<nat>, lossy: Bytes -> Bytes) returns (text: Bytes)
      ensures text == if vocab.None? then [] else lossy(Decoding(vocab.value, ids))
    {
      if vocab.None? { return []; }
      var out := DecodeBytes(vocab.value, ids);
      text := lossy(out);
    }

    method DecodeBytes(v: Vocab, ids: seq<nat>) returns (out: Bytes)
      ensures out == Decoding(v, ids)
    {
      out := [];
      var k := 0;
      while k < |ids|
        invariant k <= |ids|
        invariant out + Decoding(v, ids[k..]) == Decoding(v, ids)
      {
        assert ids[k..][1..] == ids[k + 1..];
        if Stops(ids[k]) { return; }
        out := out + Spelling(v, ids[k]);
        k := k + 1;
      }
    }
  }
}
