/**
  The JSON texts of the frames of a success stream, and that the sizes the planner works with are
  their lengths.
*/
module FrameTexts {
  import opened Wire
  import opened SuccessStream
  import opened Preflight
  import CanonicalNumbers

  function Decimal(n: nat): string { CanonicalNumbers.NatText(n) }

  lemma {:induction false} DecimalLength(n: nat)
    ensures |Decimal(n)| == Digits(n)
  {
    if n >= 10 {
      DecimalLength(n / 10);
    }
  }

  // ---------------------------------------------------------------- base64

  const ALPHABET: string := "ABCDEFGHIJKLMNOPQRSTUVWXYZabcdefghijklmnopqrstuvwxyz0123456789+/"

  function Sextet(n: nat): char
    requires n < 64
  {
    ALPHABET[n]
  }

  predicate IsBytes(data: Bytes) { forall i :: 0 <= i < |data| ==> data[i] as int < 256 }

  /** Base64 with padding (section 4 of RFC 4648): three bytes in four characters. */
  function Base64(data: Bytes): string
    requires IsBytes(data)
  {
    if data == "" then ""
    else
      var a := data[0] as int;
      if |data| == 1 then [Sextet(a / 4), Sextet(a % 4 * 16), '=', '=']
      else
        var b := data[1] as int;
        if |data| == 2 then [Sextet(a / 4), Sextet(a % 4 * 16 + b / 16), Sextet(b % 16 * 4), '=']
        else
          var c := data[2] as int;
          Quad(a, b, c) + Base64(data[3..])
  }

  function Quad(a: nat, b: nat, c: nat): (text: string)
    requires a < 256 && b < 256 && c < 256
    ensures |text| == 4
  {
    [Sextet(a / 4), Sextet(a % 4 * 16 + b / 16), Sextet(b % 16 * 4 + c / 64), Sextet(c % 64)]
  }

  lemma Thirds(n: nat)
    requires n >= 3
    ensures Base64Length(n) == 4 + Base64Length(n - 3)
  {}

  lemma {:induction false} Base64Size(data: Bytes)
    requires IsBytes(data)
    ensures |Base64(data)| == Base64Length(|data|)
  {
    if |data| >= 3 {
      Base64Size(data[3..]);
      Thirds(|data|);
    }
  }

  // ---------------------------------------------------------------- texts

  /** The fields that every frame begins with. */
  function Head(kind: string, id: nat, sequence: nat): string {
    "{\"type\":\"" + kind + "\",\"id\":" + Decimal(id) + ",\"seq\":" + Decimal(sequence)
  }

  /** The text of a frame; `hex` is the hexadecimal text of its digest. */
  function FrameText(id: nat, sequence: nat, body: Body, hex: string): string
    requires body.ItemChunk? ==> IsBytes(body.data)
  {
    match body
    case Item(kind, value) =>
      Head("item", id, sequence) + ",\"kind\":\"" + kind + "\",\"item\":" + value.json + "}"
    case ItemBegin(itemId, kind, bytes) =>
      Head("item_begin", id, sequence) + ",\"item_id\":" + Decimal(itemId) + ",\"kind\":\"" + kind
      + "\",\"encoding\":\"json\",\"bytes\":" + Decimal(bytes) + "}"
    case ItemChunk(itemId, index, data) =>
      Head("item_chunk", id, sequence) + ",\"item_id\":" + Decimal(itemId) + ",\"index\":" + Decimal(index)
      + ",\"data\":\"" + Base64(data) + "\"}"
    case ItemEnd(itemId, chunks, _) =>
      Head("item_end", id, sequence) + ",\"item_id\":" + Decimal(itemId) + ",\"chunks\":" + Decimal(chunks)
      + ",\"sha256\":\"" + hex + "\"}"
    case Completed(result) =>
      Head("completed", id, sequence) + ",\"result\":" + result.json + "}"
  }

  lemma HeadLength(kind: string, id: nat, sequence: nat)
    ensures |Head(kind, id, sequence)| == 23 + |kind| + Digits(id) + Digits(sequence)
  {
    DecimalLength(id);
    DecimalLength(sequence);
  }

  /** The planner's size of a frame is the length of its text; a digest has 64 hexadecimal digits. */
  lemma WireBytesIsLength(id: nat, sequence: nat, body: Body, hex: string)
    requires (body.ItemChunk? ==> IsBytes(body.data)) && |hex| == 64
    ensures WireBytes(id, sequence, body) == |FrameText(id, sequence, body, hex)|
  {
    match body
    case Item(_, _) => HeadLength("item", id, sequence);
    case ItemBegin(itemId, _, bytes) =>
      HeadLength("item_begin", id, sequence);
      DecimalLength(itemId);
      DecimalLength(bytes);
    case ItemChunk(itemId, index, data) =>
      HeadLength("item_chunk", id, sequence);
      DecimalLength(itemId);
      DecimalLength(index);
      Base64Size(data);
    case ItemEnd(itemId, chunks, _) =>
      HeadLength("item_end", id, sequence);
      DecimalLength(itemId);
      DecimalLength(chunks);
    case Completed(_) => HeadLength("completed", id, sequence);
  }

  /** A valid frame fits exactly when its text has at most one MiB, and a payload up to 64 MiB. */
  lemma FitsByLength(id: nat, sequence: nat, body: Body, hex: string, item: SemanticItem)
    requires (body.ItemChunk? ==> IsBytes(body.data)) && |hex| == 64
    ensures Marshal(id, sequence, body).Fits? <==>
              ValidFrame(id, sequence, body) && |FrameText(id, sequence, body, hex)| <= 1024 * 1024
    ensures Marshal(id, sequence, body).TooLarge? <==>
              ValidFrame(id, sequence, body) && |FrameText(id, sequence, body, hex)| > 1024 * 1024
    ensures MarshalPayload(item).Fits? <==>
              item.kind in KINDS && item.value.valid && |item.value.json| <= 64 * 1024 * 1024
    ensures MarshalPayload(item).TooLarge? <==>
              item.kind in KINDS && item.value.valid && |item.value.json| > 64 * 1024 * 1024
  {
    WireBytesIsLength(id, sequence, body, hex);
    KindsAreShort(item.kind);
  }

  /** What validation asks of the frames of a fragmented item, in the limits of items and chunks. */
  lemma FragmentFrames(id: nat, sequence: nat, itemId: nat, number: nat, kind: string, data: Bytes, digest: Digest)
    ensures var ids := 0 < id <= MAX_SAFE_INTEGER && 0 < sequence <= MAX_SAFE_INTEGER && 0 < itemId <= MAX_SAFE_INTEGER;
            && (ValidFrame(id, sequence, ItemBegin(itemId, kind, number)) <==>
                  ids && kind in KINDS && 1 < number <= MAX_CHUNKS * FRAGMENT_CHUNK_BYTES)
            && (ValidFrame(id, sequence, ItemChunk(itemId, number, data)) <==>
                  ids && number < MAX_CHUNKS && 0 < |data| <= FRAGMENT_CHUNK_BYTES)
            && (ValidFrame(id, sequence, ItemEnd(itemId, number, digest)) <==> ids && 0 < number <= MAX_CHUNKS)
  {
    KindsAreShort(kind);
  }

  /** And of inline items and completions. */
  lemma WholeFrames(id: nat, sequence: nat, kind: string, value: Value)
    ensures var ids := 0 < id <= MAX_SAFE_INTEGER && 0 < sequence <= MAX_SAFE_INTEGER;
            && (ValidFrame(id, sequence, Item(kind, value)) <==> ids && kind in KINDS && value.valid)
            && (ValidFrame(id, sequence, Completed(value)) <==> ids && value.valid)
  {
    KindsAreShort(kind);
  }

  /** The kinds of items are all short enough, and the longest of them is as long as the planner takes it to be. */
  lemma KindsAreShort(kind: string)
    ensures ValidKind(kind) <==> kind in KINDS
    ensures |"url_classification"| == LONGEST_KIND
  {}
}
