/**
 `DataProtector`: a character-by-character obfuscation (not encryption) that
 rotates ASCII letters by 13 places and ASCII digits by 5, leaving every other
 character alone. Decoding applies the same map, which is its own inverse.
 */
module Codec {

  predicate IsUpper(c: char) { 'A' <= c <= 'Z' }

  predicate IsLower(c: char) { 'a' <= c <= 'z' }

  /**
   An ASCII decimal digit. `Numbers.IsDigit(c, 10)` is the same test; this
   module stays self-contained, as encryption.js does, and imports nothing.
   */
  predicate IsDigit(c: char) { '0' <= c <= '9' }

  /** The characters the map moves; all others are returned unchanged. */
  predicate IsShifted(c: char) { IsUpper(c) || IsLower(c) || IsDigit(c) }

  /** The per-character map of `encodeData` and `decodeData`. */
  function Rotate(c: char): (d: char)
    ensures IsUpper(c) <==> IsUpper(d)
    ensures IsLower(c) <==> IsLower(d)
    ensures IsDigit(c) <==> IsDigit(d)
    ensures IsShifted(c) ==> d != c
    ensures !IsShifted(c) ==> d == c
  {
    var code := c as int;
    if 65 <= code <= 90 then ((code - 65 + 13) % 26 + 65) as char
    else if 97 <= code <= 122 then ((code - 97 + 13) % 26 + 97) as char
    else if 48 <= code <= 57 then ((code - 48 + 5) % 10 + 48) as char
    else c
  }

  /** The map applied to every character (`split("")`, `map`, `join("")`). */
  function RotateAll(s: string): (r: string)
    ensures |r| == |s|
    ensures forall i :: 0 <= i < |s| ==> r[i] == Rotate(s[i])
  {
    if |s| == 0 then [] else [Rotate(s[0])] + RotateAll(s[1..])
  }

  /** `encodeData`. */
  function Encode(data: string): (r: string)
    ensures |r| == |data|
    ensures forall i :: 0 <= i < |data| ==> r[i] == Rotate(data[i])
  {
    RotateAll(data)
  }

  /** `decodeData`: the same map as `encodeData`. */
  function Decode(encoded: string): (r: string)
    ensures |r| == |encoded|
    ensures forall i :: 0 <= i < |encoded| ==> r[i] == Rotate(encoded[i])
  {
    RotateAll(encoded)
  }

  /**
   The map without the remainder: the first half of each block moves up by half
   the block's size and the second half moves down by as much.
   */
  lemma RotateAsOffset(c: char)
    ensures 'A' <= c <= 'M' || 'a' <= c <= 'm' ==> Rotate(c) as int == c as int + 13
    ensures 'N' <= c <= 'Z' || 'n' <= c <= 'z' ==> Rotate(c) as int == c as int - 13
    ensures '0' <= c <= '4' ==> Rotate(c) as int == c as int + 5
    ensures '5' <= c <= '9' ==> Rotate(c) as int == c as int - 5
  {
  }

  /** Rotating twice restores the character: 13 + 13 is 26 and 5 + 5 is 10. */
  lemma RotateInvolution(c: char)
    ensures Rotate(Rotate(c)) == c
  {
    RotateAsOffset(c);
    RotateAsOffset(Rotate(c));
  }

  /** Encoding twice gives back the input. */
  lemma EncodeInvolution(s: string)
    ensures Encode(Encode(s)) == s
  {
    forall i | 0 <= i < |s|
      ensures Encode(Encode(s))[i] == s[i]
    {
      RotateInvolution(s[i]);
    }
  }

  /** Decoding undoes encoding. */
  lemma DecodeEncode(s: string)
    ensures Decode(Encode(s)) == s
  {
    forall i | 0 <= i < |s|
      ensures Decode(Encode(s))[i] == s[i]
    {
      RotateInvolution(s[i]);
    }
  }

  /** Encoding undoes decoding. */
  lemma EncodeDecode(s: string)
    ensures Encode(Decode(s)) == s
  {
    forall i | 0 <= i < |s|
      ensures Encode(Decode(s))[i] == s[i]
    {
      RotateInvolution(s[i]);
    }
  }

  /** Two different texts never encode alike. */
  lemma EncodeInjective(a: string, b: string)
    requires Encode(a) == Encode(b)
    ensures a == b
  {
    DecodeEncode(a);
    DecodeEncode(b);
  }

  /** Encoding works piece by piece: the encoding of a concatenation is the concatenation of the encodings. */
  lemma EncodeAppend(a: string, b: string)
    ensures Encode(a + b) == Encode(a) + Encode(b)
  {
    assert forall i :: 0 <= i < |a + b| ==> Encode(a + b)[i] == (Encode(a) + Encode(b))[i];
  }

  /** A text without ASCII letters or digits, such as Chinese item names, is left as it is. */
  lemma UnshiftedUnchanged(s: string)
    requires forall i :: 0 <= i < |s| ==> !IsShifted(s[i])
    ensures Encode(s) == s
  {
  }

  /** The codes the map assigns: letters move 13 places and digits 5, wrapping around. */
  lemma RotateExamples()
    ensures Rotate('A') == 'N' && Rotate('N') == 'A' && Rotate('Z') == 'M'
    ensures Rotate('a') == 'n' && Rotate('z') == 'm'
    ensures Rotate('0') == '5' && Rotate('7') == '2' && Rotate('9') == '4'
    ensures Rotate('_') == '_' && Rotate('外') == '外'
  {
  }

  /** A short text with each shifted class: "Zz9" encodes to "Mm4" and back. */
  lemma EncodeExample()
    ensures Encode("Zz9") == "Mm4"
    ensures Decode("Mm4") == "Zz9"
  {
    assert Encode("Zz9") == "Mm4";
    DecodeEncode("Zz9");
  }
}
