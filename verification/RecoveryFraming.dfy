/** The byte stream of recovery descriptors that segment and request digests cover. */
module RecoveryFraming {
  import opened Wrappers
  import opened Decimal
  import opened Identifiers

  type Byte = n: int | 0 <= n < 256

  datatype Descriptor = Descriptor(source: string, sequence: int, observedMS: int, payload: string)

  predicate ValidDescriptor(d: Descriptor) {
    IsUUID(d.source) && IsUint53(d.sequence) && IsUint53(d.observedMS) && IsDigest(d.payload)
  }

  /** The compact JSON of a descriptor; none of its characters need escaping. */
  function Json(d: Descriptor): string {
    "{\"source_id\":\"" + d.source + "\",\"sequence\":" + (Text(d.sequence) + "," + FromObserved(d))
  }

  function FromObserved(d: Descriptor): string {
    "\"observed_ms\":" + (Text(d.observedMS) + "," + FromPayload(d))
  }

  function FromPayload(d: Descriptor): string {
    "\"payload_sha256\":\"" + d.payload + "\"}"
  }

  /** The text as it goes into digests. */
  lemma JsonText(d: Descriptor)
    ensures Json(d) ==
      "{\"source_id\":\"" + d.source + "\",\"sequence\":" + (Text(d.sequence) + "," + (
        "\"observed_ms\":" + (Text(d.observedMS) + "," + ("\"payload_sha256\":\"" + d.payload + "\"}"))))
  {
    hide Text;
  }

  predicate Ascii(s: string) {
    forall i :: 0 <= i < |s| ==> s[i] < 128 as char
  }

  function Bytes(s: string): (b: seq<Byte>)
    requires Ascii(s)
    ensures |b| == |s| && forall i :: 0 <= i < |s| ==> b[i] == s[i] as int
  {
    seq(|s|, i requires 0 <= i < |s| => s[i] as int)
  }

  /** Four bytes, the most significant first. */
  function BigEndian(n: int): (b: seq<Byte>)
    requires 0 <= n < 0x1_0000_0000
    ensures |b| == 4
  {
    [n / 0x100 / 0x100 / 0x100, n / 0x100 / 0x100 % 0x100, n / 0x100 % 0x100, n % 0x100]
  }

  function FromBigEndian(b: seq<Byte>): (n: int)
    requires |b| == 4
    ensures 0 <= n < 0x1_0000_0000
  {
    var b0: int, b1: int, b2: int, b3: int := b[0], b[1], b[2], b[3];
    ((b0 * 0x100 + b1) * 0x100 + b2) * 0x100 + b3
  }

  lemma BigEndianRoundTrip(n: int)
    requires 0 <= n < 0x1_0000_0000
    ensures FromBigEndian(BigEndian(n)) == n
    ensures BigEndian(n)[0] as int * 0x100_0000 + BigEndian(n)[1] as int * 0x1_0000 + BigEndian(n)[2] as int * 0x100
            + BigEndian(n)[3] as int == n
  {
    var high := n / 0x100;
    var higher := high / 0x100;
    assert higher == (higher / 0x100) * 0x100 + higher % 0x100;
    assert high == higher * 0x100 + high % 0x100;
    assert n == high * 0x100 + n % 0x100;
  }

  // ----- the JSON is short, plain and says everything -----

  function Power(k: nat): nat {
    if k == 0 then 1 else 10 * Power(k - 1)
  }

  lemma {:induction false} NumeralIsShort(n: nat, k: nat)
    requires k >= 1 && n < Power(k)
    ensures |Numeral(n)| <= k
  {
    if n >= 10 {
      assert k >= 2 by {
        assert Power(1) == 10 * Power(0);
      }
      NumeralIsShort(n / 10, k - 1);
    }
  }

  lemma Uint53IsShort(n: int)
    requires IsUint53(n)
    ensures |Text(n)| <= 16 && Ascii(Text(n)) && ',' !in Text(n)
  {
    assert Power(4) == 10_000;
    assert Power(8) == 100_000_000;
    assert Power(12) == 1_000_000_000_000;
    assert Power(16) == 10_000_000_000_000_000;
    NumeralIsShort(n, 16);
  }

  lemma JsonIsPlain(d: Descriptor)
    requires ValidDescriptor(d)
    ensures Ascii(Json(d)) && |Json(d)| < 0x1_0000_0000
  {
    Uint53IsShort(d.sequence);
    Uint53IsShort(d.observedMS);
    IdentifiersAreAscii(d);
    hide IsUUID, IsDigest, Text;
  }

  lemma IdentifiersAreAscii(d: Descriptor)
    requires ValidDescriptor(d)
    ensures Ascii(d.source) && Ascii(d.payload) && |d.source| == 36 && |d.payload| == 64
  {
    forall i | 0 <= i < |d.source| ensures d.source[i] < 128 as char {
      assert i == 8 || i == 13 || i == 18 || i == 23 || Identifiers.IsHexDigit(d.source[i]);
    }
  }

  lemma JsonParts(d: Descriptor)
    requires |d.source| == 36
    ensures |Json(d)| >= 62 && Json(d)[14..50] == d.source && Json(d)[63..] == Text(d.sequence) + "," + FromObserved(d)
  {
    hide Text, FromObserved;
    assert |"{\"source_id\":\""| == 14 && |"\",\"sequence\":"| == 13;
  }

  lemma ObservedParts(d: Descriptor)
    ensures |FromObserved(d)| >= 14 && FromObserved(d)[14..] == Text(d.observedMS) + "," + FromPayload(d)
  {
    hide Text, FromPayload;
    assert |"\"observed_ms\":"| == 14;
  }

  lemma PayloadParts(d: Descriptor)
    requires |d.payload| == 64
    ensures |FromPayload(d)| == 84 && FromPayload(d)[18..82] == d.payload
  {
    assert |"\"payload_sha256\":\""| == 18;
  }

  /** Every field can be read off the text. */
  lemma JsonIsInjective(d: Descriptor, e: Descriptor)
    requires ValidDescriptor(d) && ValidDescriptor(e) && Json(d) == Json(e)
    ensures d == e
  {
    hide *;
    DescriptorParts(d);
    DescriptorParts(e);
    JsonParts(d);
    JsonParts(e);
    SplitsOnce(Text(d.sequence), FromObserved(d), Text(e.sequence), FromObserved(e), ',');
    TextIsInjective(d.sequence, e.sequence);
    ObservedParts(d);
    ObservedParts(e);
    SplitsOnce(Text(d.observedMS), FromPayload(d), Text(e.observedMS), FromPayload(e), ',');
    TextIsInjective(d.observedMS, e.observedMS);
    PayloadParts(d);
    PayloadParts(e);
  }

  lemma DescriptorParts(d: Descriptor)
    requires ValidDescriptor(d)
    ensures |d.source| == 36 && |d.payload| == 64 && ',' !in Text(d.sequence) && ',' !in Text(d.observedMS)
  {
    Uint53IsShort(d.sequence);
    Uint53IsShort(d.observedMS);
  }

  // ----- the stream -----

  /** What one write adds: the length in four bytes, then the text. */
  function Framed(d: Descriptor): (b: seq<Byte>)
    requires ValidDescriptor(d)
  {
    JsonIsPlain(d);
    BigEndian(|Json(d)|) + Bytes(Json(d))
  }

  predicate AllValid(ds: seq<Descriptor>) {
    forall i :: 0 <= i < |ds| ==> ValidDescriptor(ds[i])
  }

  function Stream(ds: seq<Descriptor>): seq<Byte>
    requires AllValid(ds)
  {
    if ds == [] then [] else Framed(ds[0]) + Stream(ds[1..])
  }

  /** The writer the descriptors go to. */
  class Sink {
    var written: seq<Byte>

    constructor ()
      ensures written == []
    {
      written := [];
    }

    /** WriteRecoveryDescriptor: an invalid descriptor is refused before anything is written. */
    method Write(d: Descriptor) returns (ok: bool)
      modifies this
      ensures ok <==> ValidDescriptor(d)
      ensures written == if ok then old(written) + Framed(d) else old(written)
    {
      hide IsUUID, IsDigest;
      if !IsUUID(d.source) || d.sequence < 0 || d.sequence > MAX_UINT53 || d.observedMS < 0 || d.observedMS > MAX_UINT53
         || !IsDigest(d.payload) {
        return false;
      }
      JsonIsPlain(d);
      var encoded := Bytes(Json(d));
      written := written + BigEndian(|encoded|);
      written := written + encoded;
      assert written == old(written) + Framed(d);
      return true;
    }

    /** A whole list, as the callers write segments and requests. */
    method WriteAll(ds: seq<Descriptor>) returns (ok: bool)
      modifies this
      ensures ok <==> AllValid(ds)
      ensures ok ==> written == old(written) + Stream(ds)
    {
      hide ValidDescriptor, Framed;
      for i := 0 to |ds|
        invariant AllValid(ds[..i])
        invariant written == old(written) + Stream(ds[..i])
      {
        assert ds[..i + 1] == ds[..i] + [ds[i]];
        ok := Write(ds[i]);
        if !ok {
          return;
        }
        StreamOneMore(ds[..i], ds[i]);
      }
      assert ds[..|ds|] == ds;
      return true;
    }
  }

  lemma {:induction false} StreamOneMore(ds: seq<Descriptor>, d: Descriptor)
    requires AllValid(ds) && ValidDescriptor(d)
    ensures AllValid(ds + [d]) && Stream(ds + [d]) == Stream(ds) + Framed(d)
  {
    hide ValidDescriptor, Framed;
    if ds == [] {
      assert [d][1..] == [];
    } else {
      assert (ds + [d])[1..] == ds[1..] + [d];
      StreamOneMore(ds[1..], d);
    }
  }

  /** The texts a length-prefixed stream holds, or None when it ends inside a frame. */
  function Read(b: seq<Byte>): Option<seq<seq<Byte>>> {
    if b == [] then Some([])
    else if |b| < 4 then None
    else
      var n := FromBigEndian(b[..4]);
      if |b| < 4 + n then None
      else
        var rest := Read(b[4 + n..]);
        if rest.None? then None else Some([b[4..4 + n]] + rest.value)
  }

  function Texts(ds: seq<Descriptor>): seq<seq<Byte>>
    requires AllValid(ds)
  {
    if ds == [] then [] else (JsonIsPlain(ds[0]); [Bytes(Json(ds[0]))]) + Texts(ds[1..])
  }

  /** Reading the lengths back recovers exactly the texts that were written. */
  lemma {:induction false} ReadRecoversTheTexts(ds: seq<Descriptor>)
    requires AllValid(ds)
    ensures Read(Stream(ds)) == Some(Texts(ds))
  {
    if ds != [] {
      JsonIsPlain(ds[0]);
      var text, rest := Bytes(Json(ds[0])), Stream(ds[1..]);
      var b := Stream(ds);
      hide ValidDescriptor, Json;
      assert b == BigEndian(|text|) + text + rest;
      BigEndianRoundTrip(|text|);
      assert b[..4] == BigEndian(|text|) && b[4..4 + |text|] == text && b[4 + |text|..] == rest;
      ReadRecoversTheTexts(ds[1..]);
    }
  }

  lemma BytesAreInjective(s: string, t: string)
    requires Ascii(s) && Ascii(t) && Bytes(s) == Bytes(t)
    ensures s == t
  {
    assert |s| == |t|;
    forall i | 0 <= i < |s| ensures s[i] == t[i] {
      assert Bytes(s)[i] == Bytes(t)[i];
    }
  }

  lemma {:induction false} TextsAreInjective(ds: seq<Descriptor>, es: seq<Descriptor>)
    requires AllValid(ds) && AllValid(es) && Texts(ds) == Texts(es)
    ensures ds == es
  {
    hide *;
    TextsUnfold(ds);
    TextsUnfold(es);
    if ds != [] && es != [] {
      var rest, rest' := Texts(ds[1..]), Texts(es[1..]);
      assert ([Bytes(Json(ds[0]))] + rest)[0] == ([Bytes(Json(es[0]))] + rest')[0];
      assert ([Bytes(Json(ds[0]))] + rest)[1..] == rest && ([Bytes(Json(es[0]))] + rest')[1..] == rest';
      BytesAreInjective(Json(ds[0]), Json(es[0]));
      JsonIsInjective(ds[0], es[0]);
      TextsAreInjective(ds[1..], es[1..]);
      assert ds == [ds[0]] + ds[1..] && es == [es[0]] + es[1..];
    }
  }

  lemma TextsUnfold(ds: seq<Descriptor>)
    requires AllValid(ds)
    ensures ds == [] <==> Texts(ds) == []
    ensures ds != [] ==>
      && AllValid(ds[1..]) && ValidDescriptor(ds[0]) && Ascii(Json(ds[0]))
      && Texts(ds) == [Bytes(Json(ds[0]))] + Texts(ds[1..])
  {
    if ds != [] {
      JsonIsPlain(ds[0]);
    }
    hide Json, ValidDescriptor, Bytes;
  }

  /** Two descriptor lists with the same byte stream are the same list, so a digest of the stream is a
      digest of the list. */
  lemma StreamsAreUnique(ds: seq<Descriptor>, es: seq<Descriptor>)
    requires AllValid(ds) && AllValid(es) && Stream(ds) == Stream(es)
    ensures ds == es
  {
    ReadRecoversTheTexts(ds);
    ReadRecoversTheTexts(es);
    TextsAreInjective(ds, es);
  }
}
