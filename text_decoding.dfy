/**
 * Charset detection for CSV files: the byte order mark sniffing and the
 * fallback chain of `smartDecodeText`, and the chain of
 * `detectAndDecodeText`.  The charset decoders themselves are platform
 * code; they are parameters here.
 */
module TextDecoding {
  import opened Wrappers
  import opened Buffers

  /**
   * `new TextDecoder(encoding, { fatal: true }).decode(buffer)`: the text, or
   * None when the decoder throws (an unknown encoding or a malformed sequence).
   */
  type StrictDecoder = (string, Bytes) -> Option<string>

  /** `new TextDecoder("utf-8", { fatal: false }).decode(buffer)`, which never throws. */
  type LenientDecoder = Bytes -> string

  /** U+FFFD, the character a decoder puts in place of what it cannot read. */
  const ReplacementChar: char := '\U{FFFD}'

  /** `buffer[i]` of a `Uint8Array`: undefined past the end. */
  function ByteAt(buffer: Bytes, i: nat): Option<byte>
  {
    if i < |buffer| then Some(buffer[i]) else None
  }

  predicate HasPrefix(buffer: Bytes, sig: Bytes)
  {
    |sig| <= |buffer| && buffer[..|sig|] == sig
  }

  const Utf8Bom: Bytes := [0xEF, 0xBB, 0xBF]
  const Utf16BeBom: Bytes := [0xFE, 0xFF]
  const Utf16LeBom: Bytes := [0xFF, 0xFE]

  /** `detectBOM(buffer)`: the charset a byte order mark announces, or null. */
  function DetectBom(buffer: Bytes): (r: Option<string>)
    ensures r == Some("utf-8") <==> HasPrefix(buffer, Utf8Bom)
    ensures r == Some("utf-16be") <==> HasPrefix(buffer, Utf16BeBom)
    ensures r == Some("utf-16le") <==> HasPrefix(buffer, Utf16LeBom)
    ensures r.None? <==> !HasPrefix(buffer, Utf8Bom) && !HasPrefix(buffer, Utf16BeBom) && !HasPrefix(buffer, Utf16LeBom)
    ensures r.Some? ==> r.value in {"utf-8", "utf-16be", "utf-16le"}
  {
    assert |buffer| >= 3 ==> buffer[..3] == [buffer[0], buffer[1], buffer[2]];
    assert |buffer| >= 2 ==> buffer[..2] == [buffer[0], buffer[1]];
    if ByteAt(buffer, 0) == Some(0xEF) && ByteAt(buffer, 1) == Some(0xBB) && ByteAt(buffer, 2) == Some(0xBF) then Some("utf-8")
    else if ByteAt(buffer, 0) == Some(0xFE) && ByteAt(buffer, 1) == Some(0xFF) then Some("utf-16be")
    else if ByteAt(buffer, 0) == Some(0xFF) && ByteAt(buffer, 1) == Some(0xFE) then Some("utf-16le")
    else None
  }

  /** A buffer of fewer than two bytes carries no byte order mark. */
  lemma ShortBufferHasNoBom(buffer: Bytes)
    requires |buffer| < 2
    ensures DetectBom(buffer).None?
  {
  }

  /**
   * `tryDecode(buffer, encoding)`: the strict decoding, rejected (null) when
   * the decoder throws and when the text contains U+FFFD.
   */
  function TryDecode(decode: StrictDecoder, encoding: string, buffer: Bytes): (r: Option<string>)
    ensures r.Some? <==> decode(encoding, buffer).Some? && ReplacementChar !in decode(encoding, buffer).value
    ensures r.Some? ==> r == decode(encoding, buffer) && ReplacementChar !in r.value
  {
    match decode(encoding, buffer)
    case None => None
    case Some(text) => if ReplacementChar in text then None else Some(text)
  }

  /** The result of the first encoding whose attempt is accepted, trying the labels in order. */
  function FirstAccepted(decode: StrictDecoder, labels: seq<string>, buffer: Bytes): Option<string>
  {
    if labels == [] then None
    else
      match TryDecode(decode, labels[0], buffer)
      case Some(text) => Some(text)
      case None => FirstAccepted(decode, labels[1..], buffer)
  }

  /**
   * FirstAccepted is the attempt at the first accepted position: every
   * earlier attempt is rejected; None exactly when every attempt is rejected.
   */
  lemma {:induction false} FirstAcceptedMeaning(decode: StrictDecoder, labels: seq<string>, buffer: Bytes)
    ensures FirstAccepted(decode, labels, buffer).None? <==>
      forall i :: 0 <= i < |labels| ==> TryDecode(decode, labels[i], buffer).None?
    ensures FirstAccepted(decode, labels, buffer).Some? ==>
      exists i :: 0 <= i < |labels| && TryDecode(decode, labels[i], buffer) == FirstAccepted(decode, labels, buffer)
        && forall j :: 0 <= j < i ==> TryDecode(decode, labels[j], buffer).None?
  {
    if labels != [] {
      FirstAcceptedMeaning(decode, labels[1..], buffer);
      if TryDecode(decode, labels[0], buffer).None? {
        if FirstAccepted(decode, labels, buffer).Some? {
          var i :| 0 <= i < |labels[1..]| && TryDecode(decode, labels[1..][i], buffer) == FirstAccepted(decode, labels, buffer)
            && forall j :: 0 <= j < i ==> TryDecode(decode, labels[1..][j], buffer).None?;
          assert labels[i + 1] == labels[1..][i];
          forall j | 0 <= j < i + 1
            ensures TryDecode(decode, labels[j], buffer).None?
          {
            if j > 0 {
              assert labels[j] == labels[1..][j - 1];
            }
          }
        } else {
          forall i | 0 <= i < |labels|
            ensures TryDecode(decode, labels[i], buffer).None?
          {
            if i > 0 {
              assert labels[i] == labels[1..][i - 1];
            }
          }
        }
      }
    }
  }

  /** Trying a list of labels and then another is trying their concatenation. */
  lemma {:induction false} FirstAcceptedAppend(decode: StrictDecoder, a: seq<string>, b: seq<string>, buffer: Bytes)
    ensures FirstAccepted(decode, a + b, buffer) ==
      if FirstAccepted(decode, a, buffer).Some? then FirstAccepted(decode, a, buffer) else FirstAccepted(decode, b, buffer)
  {
    if a == [] {
      assert a + b == b;
    } else {
      assert (a + b)[1..] == a[1..] + b;
      FirstAcceptedAppend(decode, a[1..], b, buffer);
    }
  }

  /** An accepted result never contains U+FFFD. */
  lemma {:induction false} FirstAcceptedIsClean(decode: StrictDecoder, labels: seq<string>, buffer: Bytes)
    ensures FirstAccepted(decode, labels, buffer).Some? ==> ReplacementChar !in FirstAccepted(decode, labels, buffer).value
  {
    if labels != [] && TryDecode(decode, labels[0], buffer).None? {
      FirstAcceptedIsClean(decode, labels[1..], buffer);
    }
  }

  const ChineseEncodings: seq<string> := ["gbk", "gb2312", "big5"]
  const FallbackEncodings: seq<string> := ["windows-1252", "iso-8859-1"]

  /** The labels `detectAndDecodeText` tries, in order. */
  const EncodingsToTry: seq<string> := ["utf-8", "gbk", "gb2312", "big5", "windows-1252", "iso-8859-1"]

  /** The labels `smartDecodeText` tries, in order: the byte order mark's charset, if any, then the rest. */
  function SmartOrder(buffer: Bytes): seq<string>
  {
    (match DetectBom(buffer) case Some(bom) => [bom] case None => []) + ["utf-8"] + ChineseEncodings + FallbackEncodings
  }

  /** The first accepted attempt, or the lenient utf-8 decoding when none is accepted. */
  function AcceptedOrLenient(decode: StrictDecoder, lenient: LenientDecoder, labels: seq<string>, buffer: Bytes): string
  {
    match FirstAccepted(decode, labels, buffer)
    case Some(text) => text
    case None => lenient(buffer)
  }

  /** What `smartDecodeText(arrayBuffer)` returns. */
  function SmartDecode(decode: StrictDecoder, lenient: LenientDecoder, buffer: Bytes): string
  {
    AcceptedOrLenient(decode, lenient, SmartOrder(buffer), buffer)
  }

  /** What `detectAndDecodeText(arrayBuffer)` returns. */
  function DetectAndDecode(decode: StrictDecoder, lenient: LenientDecoder, buffer: Bytes): string
  {
    AcceptedOrLenient(decode, lenient, EncodingsToTry, buffer)
  }

  /** `smartDecodeText`: the byte order mark attempt, utf-8, the Chinese charsets, the fallbacks, then the lenient decoding. */
  method SmartDecodeText(decode: StrictDecoder, lenient: LenientDecoder, arrayBuffer: Bytes) returns (text: string)
    ensures text == SmartDecode(decode, lenient, arrayBuffer)
  {
    ghost var order := SmartOrder(arrayBuffer);
    var bomEncoding := DetectBom(arrayBuffer);
    ghost var tried: seq<string> := [];
    if bomEncoding.Some? {
      var t := TryInOrder(decode, lenient, tried, [bomEncoding.value], order, arrayBuffer);
      if t.Some? {
        return t.value;
      }
      tried := tried + [bomEncoding.value];
    }
    assert [] + order[..|tried|] == tried;

    var utf8Text := TryInOrder(decode, lenient, tried, ["utf-8"], order, arrayBuffer);
    if utf8Text.Some? {
      return utf8Text.value;
    }
    tried := tried + ["utf-8"];

    var chinese := TryInOrder(decode, lenient, tried, ChineseEncodings, order, arrayBuffer);
    if chinese.Some? {
      return chinese.value;
    }
    tried := tried + ChineseEncodings;

    var fallback := TryInOrder(decode, lenient, tried, FallbackEncodings, order, arrayBuffer);
    if fallback.Some? {
      return fallback.value;
    }
    NoneAcceptedAtAll(decode, lenient, tried + FallbackEncodings, order, arrayBuffer);
    return lenient(arrayBuffer);
  }

  /** `detectAndDecodeText`: each encoding of EncodingsToTry in turn, then the lenient decoding. */
  method DetectAndDecodeText(decode: StrictDecoder, lenient: LenientDecoder, arrayBuffer: Bytes) returns (text: string)
    ensures text == DetectAndDecode(decode, lenient, arrayBuffer)
  {
    var t := TryInOrder(decode, lenient, [], EncodingsToTry, EncodingsToTry, arrayBuffer);
    if t.Some? {
      return t.value;
    }
    NoneAcceptedAtAll(decode, lenient, [] + EncodingsToTry, EncodingsToTry, arrayBuffer);
    return lenient(arrayBuffer);
  }

  /**
   * A `for (const enc of encodings)` loop of either chain: tryDecode each in
   * turn and return the first accepted text.  When the attempts before it
   * (tried) were all rejected, that text is the chain's result; None means
   * every attempt so far was rejected.
   */
  method TryInOrder(decode: StrictDecoder, lenient: LenientDecoder, ghost tried: seq<string>, encodings: seq<string>,
                    ghost order: seq<string>, arrayBuffer: Bytes)
    returns (text: Option<string>)
    requires FirstAccepted(decode, tried, arrayBuffer).None?
    requires |tried| + |encodings| <= |order| && order[..|tried| + |encodings|] == tried + encodings
    ensures text.Some? ==> text.value == AcceptedOrLenient(decode, lenient, order, arrayBuffer)
    ensures text.None? ==> FirstAccepted(decode, tried + encodings, arrayBuffer).None?
  {
    assert tried + encodings[..0] == tried;
    for i := 0 to |encodings|
      invariant FirstAccepted(decode, tried + encodings[..i], arrayBuffer).None?
    {
      var t := TryDecode(decode, encodings[i], arrayBuffer);
      PrefixStep(order, tried, encodings, i);
      if t.Some? {
        AcceptedAfter(decode, lenient, tried + encodings[..i], order, arrayBuffer);
        return t;
      }
      RejectedExtends(decode, tried + encodings[..i], [encodings[i]], arrayBuffer);
    }
    assert encodings[..|encodings|] == encodings;
    return None;
  }

  lemma PrefixStep(order: seq<string>, tried: seq<string>, encodings: seq<string>, i: nat)
    requires i < |encodings| && |tried| + |encodings| <= |order| && order[..|tried| + |encodings|] == tried + encodings
    ensures |tried + encodings[..i]| < |order| && order[..|tried + encodings[..i]|] == tried + encodings[..i]
    ensures order[|tried + encodings[..i]|] == encodings[i]
    ensures tried + encodings[..i + 1] == tried + encodings[..i] + [encodings[i]]
  {
    assert order[..|tried| + i] == (tried + encodings)[..|tried| + i];
    assert (tried + encodings)[..|tried| + i] == tried + encodings[..i];
    assert order[|tried| + i] == (tried + encodings)[|tried| + i];
    assert encodings[..i + 1] == encodings[..i] + [encodings[i]];
  }

  /** When every label of the order is rejected, the chain ends in the lenient decoding. */
  lemma NoneAcceptedAtAll(decode: StrictDecoder, lenient: LenientDecoder, tried: seq<string>, order: seq<string>, buffer: Bytes)
    requires FirstAccepted(decode, tried, buffer).None? && tried == order
    ensures AcceptedOrLenient(decode, lenient, order, buffer) == lenient(buffer)
  {
  }

  /** All of a and then all of b rejected: all of a + b rejected. */
  lemma RejectedExtends(decode: StrictDecoder, a: seq<string>, b: seq<string>, buffer: Bytes)
    requires FirstAccepted(decode, a, buffer).None? && FirstAccepted(decode, b, buffer).None?
    ensures FirstAccepted(decode, a + b, buffer).None?
  {
    FirstAcceptedAppend(decode, a, b, buffer);
  }

  /** When the labels before position |before| are all rejected and the one there is accepted, its result is the chain's result. */
  lemma AcceptedAfter(decode: StrictDecoder, lenient: LenientDecoder, before: seq<string>, labels: seq<string>, buffer: Bytes)
    requires |before| < |labels| && labels[..|before|] == before
    requires FirstAccepted(decode, before, buffer).None? && TryDecode(decode, labels[|before|], buffer).Some?
    ensures AcceptedOrLenient(decode, lenient, labels, buffer) == TryDecode(decode, labels[|before|], buffer).value
  {
    var next := [labels[|before|]];
    var rest := labels[|before| + 1..];
    assert labels == before + next + rest;
    FirstAcceptedAppend(decode, before + next, rest, buffer);
    FirstAcceptedAppend(decode, before, next, buffer);
    assert next[1..] == [];
  }

  /**
   * smartDecodeText returns the result of the first accepted attempt in the
   * order byte order mark, utf-8, gbk, gb2312, big5, windows-1252,
   * iso-8859-1, and the lenient utf-8 decoding only when all are rejected.
   */
  lemma SmartDecodeFirstAccepted(decode: StrictDecoder, lenient: LenientDecoder, buffer: Bytes)
    ensures var order := SmartOrder(buffer);
      && (forall i :: 0 <= i < |order| ==> TryDecode(decode, order[i], buffer).None?) ==> SmartDecode(decode, lenient, buffer) == lenient(buffer)
    ensures var order := SmartOrder(buffer);
      forall i :: (0 <= i < |order| && TryDecode(decode, order[i], buffer).Some?
          && (forall j :: 0 <= j < i ==> TryDecode(decode, order[j], buffer).None?)) ==>
        SmartDecode(decode, lenient, buffer) == TryDecode(decode, order[i], buffer).value
  {
    var order := SmartOrder(buffer);
    FirstAcceptedMeaning(decode, order, buffer);
    forall i | 0 <= i < |order| && TryDecode(decode, order[i], buffer).Some?
        && (forall j :: 0 <= j < i ==> TryDecode(decode, order[j], buffer).None?)
      ensures SmartDecode(decode, lenient, buffer) == TryDecode(decode, order[i], buffer).value
    {
      NoneAccepted(decode, order[..i], buffer);
      AcceptedAfter(decode, lenient, order[..i], order, buffer);
    }
  }

  /** Labels whose attempts are all rejected give no accepted result. */
  lemma {:induction false} NoneAccepted(decode: StrictDecoder, labels: seq<string>, buffer: Bytes)
    requires forall i :: 0 <= i < |labels| ==> TryDecode(decode, labels[i], buffer).None?
    ensures FirstAccepted(decode, labels, buffer).None?
  {
    if labels != [] {
      assert forall i :: 0 <= i < |labels[1..]| ==> labels[1..][i] == labels[i + 1];
      NoneAccepted(decode, labels[1..], buffer);
    }
  }

  /** The attempts after a byte order mark are exactly those of detectAndDecodeText. */
  lemma SmartOrderShape(buffer: Bytes)
    ensures DetectBom(buffer).None? ==> SmartOrder(buffer) == EncodingsToTry
    ensures DetectBom(buffer).Some? ==> SmartOrder(buffer) == [DetectBom(buffer).value] + EncodingsToTry
  {
  }

  /**
   * A rejected byte order mark attempt falls through to the utf-8 attempt:
   * without a mark, or with one whose charset is rejected, smartDecodeText
   * gives what detectAndDecodeText gives.
   */
  lemma BomFallsThrough(decode: StrictDecoder, lenient: LenientDecoder, buffer: Bytes)
    requires DetectBom(buffer).None? || TryDecode(decode, DetectBom(buffer).value, buffer).None?
    ensures SmartDecode(decode, lenient, buffer) == DetectAndDecode(decode, lenient, buffer)
  {
    SmartOrderShape(buffer);
    if DetectBom(buffer).Some? {
      FirstAcceptedAppend(decode, [DetectBom(buffer).value], EncodingsToTry, buffer);
      assert [DetectBom(buffer).value][1..] == [];
    }
  }

  /** With a utf-8 mark, or none, the two chains agree: the mark's attempt is the utf-8 attempt. */
  lemma Utf8BomSameAsDetect(decode: StrictDecoder, lenient: LenientDecoder, buffer: Bytes)
    requires DetectBom(buffer) != Some("utf-16be") && DetectBom(buffer) != Some("utf-16le")
    ensures SmartDecode(decode, lenient, buffer) == DetectAndDecode(decode, lenient, buffer)
  {
    SmartOrderShape(buffer);
    if DetectBom(buffer).Some? {
      assert SmartOrder(buffer) == ["utf-8"] + EncodingsToTry;
      FirstAcceptedAppend(decode, ["utf-8"], EncodingsToTry, buffer);
      assert ["utf-8"][1..] == [];
      assert EncodingsToTry == ["utf-8"] + EncodingsToTry[1..];
      FirstAcceptedAppend(decode, ["utf-8"], EncodingsToTry[1..], buffer);
    }
  }

  /** A result containing U+FFFD can only come from the lenient last resort, after every attempt was rejected. */
  lemma ReplacementOnlyFromLastResort(decode: StrictDecoder, lenient: LenientDecoder, buffer: Bytes)
    requires ReplacementChar in SmartDecode(decode, lenient, buffer)
    ensures SmartDecode(decode, lenient, buffer) == lenient(buffer)
    ensures forall i :: 0 <= i < |SmartOrder(buffer)| ==> TryDecode(decode, SmartOrder(buffer)[i], buffer).None?
  {
    FirstAcceptedIsClean(decode, SmartOrder(buffer), buffer);
    FirstAcceptedMeaning(decode, SmartOrder(buffer), buffer);
  }

  /** The same for detectAndDecodeText. */
  lemma DetectReplacementOnlyFromLastResort(decode: StrictDecoder, lenient: LenientDecoder, buffer: Bytes)
    requires ReplacementChar in DetectAndDecode(decode, lenient, buffer)
    ensures DetectAndDecode(decode, lenient, buffer) == lenient(buffer)
    ensures forall i :: 0 <= i < |EncodingsToTry| ==> TryDecode(decode, EncodingsToTry[i], buffer).None?
  {
    FirstAcceptedIsClean(decode, EncodingsToTry, buffer);
    FirstAcceptedMeaning(decode, EncodingsToTry, buffer);
  }
}
