/** Recognising text at the head of an upload: strict UTF-8 (section 4 of RFC 3629) up to a cut at the window. */
module TextSniff {
  import opened Basics

  type Bytes = seq<bv8>

  const SNIFF_BYTES := 8192

  // ------------------------------------------------------------------- UTF-8

  predicate Tail(b: bv8) { 0x80 <= b <= 0xBF }

  /** How many bytes the first character takes, judging by its first byte; 0 for a byte that starts none. */
  function Promised(b: bv8): nat {
    if b <= 0x7F then 1
    else if 0xC2 <= b <= 0xDF then 2
    else if 0xE0 <= b <= 0xEF then 3
    else if 0xF0 <= b <= 0xF4 then 4
    else 0
  }

  /** Overlong forms, surrogates and values past U+10FFFF are shut out by the second byte. */
  predicate SecondByte(first: bv8, second: bv8) {
    if first == 0xE0 then 0xA0 <= second <= 0xBF
    else if first == 0xED then 0x80 <= second <= 0x9F
    else if first == 0xF0 then 0x90 <= second <= 0xBF
    else if first == 0xF4 then 0x80 <= second <= 0x8F
    else Tail(second)
  }

  /** The production `UTF8-char`. */
  predicate Character(c: Bytes) {
    && c != [] && |c| == Promised(c[0])
    && (|c| > 1 ==> SecondByte(c[0], c[1]))
    && (forall i :: 2 <= i < |c| ==> Tail(c[i]))
  }

  /** The alternatives of `UTF8-char`, each a range of bytes per place. */
  const GRAMMAR: seq<seq<(bv8, bv8)>> :=
    [ [(0x00, 0x7F)],
      [(0xC2, 0xDF), (0x80, 0xBF)],
      [(0xE0, 0xE0), (0xA0, 0xBF), (0x80, 0xBF)],
      [(0xE1, 0xEC), (0x80, 0xBF), (0x80, 0xBF)],
      [(0xED, 0xED), (0x80, 0x9F), (0x80, 0xBF)],
      [(0xEE, 0xEF), (0x80, 0xBF), (0x80, 0xBF)],
      [(0xF0, 0xF0), (0x90, 0xBF), (0x80, 0xBF), (0x80, 0xBF)],
      [(0xF1, 0xF3), (0x80, 0xBF), (0x80, 0xBF), (0x80, 0xBF)],
      [(0xF4, 0xF4), (0x80, 0x8F), (0x80, 0xBF), (0x80, 0xBF)] ]

  /** The bytes are in the ranges, place by place. */
  ghost predicate Fits(c: Bytes, ranges: seq<(bv8, bv8)>) {
    |c| == |ranges| && forall i :: 0 <= i < |c| ==> ranges[i].0 <= c[i] <= ranges[i].1
  }

  ghost predicate FitsRow(c: Bytes, row: nat) { row < |GRAMMAR| && Fits(c, GRAMMAR[row]) }

  /** The alternative a first byte leads to. */
  function RowOf(first: bv8): nat {
    if first <= 0x7F then 0
    else if first <= 0xDF then 1
    else if first == 0xE0 then 2
    else if first <= 0xEC then 3
    else if first == 0xED then 4
    else if first <= 0xEF then 5
    else if first == 0xF0 then 6
    else if first <= 0xF3 then 7
    else 8
  }

  /** The decoder's reading of a character is the standard's. */
  lemma CharacterIffGrammar(c: Bytes)
    ensures Character(c) <==> exists row: nat :: FitsRow(c, row)
  {
    if Character(c) {
      assert FitsRow(c, RowOf(c[0]));
    }
    if row: nat :| FitsRow(c, row) {
      assert c[0] <= 0xF4 && row == RowOf(c[0]);
    }
  }

  /** The length of the character at the front, as a strict decoder reads it; 0 where it raises. */
  function FrontLength(b: Bytes): (n: nat)
    ensures n <= |b|
  {
    if b != [] && Promised(b[0]) <= |b| && Character(b[..Promised(b[0])]) then Promised(b[0]) else 0
  }

  /** `b.decode("utf-8")` does not raise. */
  predicate Decodes(b: Bytes)
    decreases |b|
  {
    b == [] || (FrontLength(b) > 0 && Decodes(b[FrontLength(b)..]))
  }

  /** Some number of whole characters fill exactly `n` bytes. */
  ghost predicate Boundary(chars: seq<Bytes>, n: nat) { exists k: nat :: EndsAt(chars, k, n) }

  ghost predicate EndsAt(chars: seq<Bytes>, k: nat, n: nat) { k <= |chars| && |Concat(chars[..k])| == n }

  ghost predicate Characters(chars: seq<Bytes>) { forall i :: 0 <= i < |chars| ==> Character(chars[i]) }

  lemma EndsAtRest(chars: seq<Bytes>, k: nat, n: nat)
    requires chars != []
    ensures EndsAt(chars, k + 1, n) <==> n >= |chars[0]| && EndsAt(chars[1..], k, n - |chars[0]|)
  {
    if k + 1 <= |chars| {
      assert chars[..k + 1] == [chars[0]] + chars[1..][..k];
      ConcatFront(chars[0], chars[1..][..k]);
    }
  }

  lemma BoundaryRest(chars: seq<Bytes>, n: nat)
    requires chars != [] && n > 0
    ensures Boundary(chars, n) <==> n >= |chars[0]| && Boundary(chars[1..], n - |chars[0]|)
  {
    if Boundary(chars, n) {
      var k: nat :| EndsAt(chars, k, n);
      assert k > 0;
      EndsAtRest(chars, k - 1, n);
    }
    if n >= |chars[0]| && Boundary(chars[1..], n - |chars[0]|) {
      var k: nat :| EndsAt(chars[1..], k, n - |chars[0]|);
      EndsAtRest(chars, k, n);
    }
  }

  lemma WholeCharacter(c: Bytes, rest: Bytes)
    requires Character(c)
    ensures Decodes(c + rest) <==> Decodes(rest)
  {
    assert (c + rest)[..|c|] == c && (c + rest)[|c|..] == rest;
  }

  lemma CutCharacter(c: Bytes, n: nat)
    requires Character(c) && 0 < n < |c|
    ensures !Decodes(c[..n])
  {
    assert FrontLength(c[..n]) == 0;
  }

  /** A well-formed text cut after `n` bytes still decodes exactly when the cut falls between characters. */
  lemma {:induction false} DecodesIffBoundary(chars: seq<Bytes>, n: nat)
    requires Characters(chars) && n <= |Concat(chars)|
    ensures Decodes(Concat(chars)[..n]) <==> Boundary(chars, n)
  {
    if n == 0 {
      assert EndsAt(chars, 0, 0);
    } else {
      var c, rest := chars[0], chars[1..];
      assert chars == [c] + rest;
      ConcatFront(c, rest);
      BoundaryRest(chars, n);
      var head := Concat(chars)[..n];
      if n < |c| {
        assert head == c[..n];
        CutCharacter(c, n);
      } else {
        assert head == c + Concat(rest)[..n - |c|];
        WholeCharacter(c, Concat(rest)[..n - |c|]);
        DecodesIffBoundary(rest, n - |c|);
      }
    }
  }

  /** UTF-8 text: nothing but whole characters, one after the other. */
  ghost predicate Utf8(b: Bytes) { exists chars :: Characters(chars) && Concat(chars) == b }

  lemma {:induction false} DecodesIffUtf8(b: Bytes)
    ensures Decodes(b) <==> Utf8(b)
    decreases |b|
  {
    if Decodes(b) {
      var whole := CharactersOf(b);
    }
    if chars :| Characters(chars) && Concat(chars) == b {
      assert chars[..|chars|] == chars && b[..|b|] == b;
      assert EndsAt(chars, |chars|, |b|);
      DecodesIffBoundary(chars, |b|);
    }
  }

  lemma {:induction false} CharactersOf(b: Bytes) returns (chars: seq<Bytes>)
    requires Decodes(b)
    ensures Characters(chars) && Concat(chars) == b
    decreases |b|
  {
    if b == [] {
      chars := [];
    } else {
      var n := FrontLength(b);
      var rest := CharactersOf(b[n..]);
      chars := [b[..n]] + rest;
      ConcatFront(b[..n], rest);
    }
  }

  // -------------------------------------------------------------- the sniffing

  /** `head[:-4]`. */
  function ButLastFour(head: Bytes): Bytes { if |head| <= 4 then [] else head[..|head| - 4] }

  /** `_is_probably_text`. */
  predicate IsProbablyText(head: Bytes) {
    0 !in head && (Decodes(head) || Decodes(ButLastFour(head)))
  }

  function Head(b: Bytes): (head: Bytes)
    ensures head <= b && |head| == if |b| <= 8192 then |b| else 8192
  {
    if |b| <= SNIFF_BYTES then b else b[..SNIFF_BYTES]
  }

  /** Text cut to a window is recognised exactly when the window ends, or ends but four bytes, between characters. */
  lemma WindowAccepted(chars: seq<Bytes>, n: nat)
    requires Characters(chars) && 0 !in Concat(chars) && 4 <= n <= |Concat(chars)|
    ensures IsProbablyText(Concat(chars)[..n]) <==> Boundary(chars, n) || Boundary(chars, n - 4)
  {
    var head := Concat(chars)[..n];
    DecodesIffBoundary(chars, n);
    DecodesIffBoundary(chars, n - 4);
    assert ButLastFour(head) == Concat(chars)[..n - 4];
    assert 0 !in head;
  }

  /** Text that fits the window is always recognised. */
  lemma WholeTextAccepted(chars: seq<Bytes>)
    requires Characters(chars) && 0 !in Concat(chars)
    ensures IsProbablyText(Concat(chars))
  {
    var text := Concat(chars);
    assert text[..|text|] == text && chars[..|chars|] == chars;
    assert EndsAt(chars, |chars|, |text|);
    DecodesIffBoundary(chars, |text|);
  }

  /** Every character takes `w` bytes. */
  ghost predicate Width(chars: seq<Bytes>, w: nat) { forall i :: 0 <= i < |chars| ==> |chars[i]| == w }

  /** `w` times `k`, for the widths there are. */
  function Times(w: nat, k: nat): nat
    requires 1 <= w <= 4
  {
    if w == 1 then k else if w == 2 then 2 * k else if w == 3 then 3 * k else 4 * k
  }

  lemma {:induction false} UniformLength(chars: seq<Bytes>, w: nat)
    requires Width(chars, w) && 1 <= w <= 4
    ensures |Concat(chars)| == Times(w, |chars|)
  {
    if chars != [] {
      UniformLength(chars[..|chars| - 1], w);
    }
  }

  /** Between characters of width `w` are exactly the multiples of `w`. */
  lemma UniformBoundary(chars: seq<Bytes>, w: nat, n: nat)
    requires Width(chars, w) && 1 <= w <= 4 && n <= |Concat(chars)|
    ensures Boundary(chars, n) <==> n % w == 0
  {
    UniformLength(chars, w);
    if Boundary(chars, n) {
      var k: nat :| EndsAt(chars, k, n);
      UniformLength(chars[..k], w);
      Multiples(w, k, n);
    }
    if n % w == 0 {
      var k := n / w;
      Multiples(w, k, n);
      assert k <= |chars|;
      UniformLength(chars[..k], w);
      assert EndsAt(chars, k, n);
    }
  }

  lemma Multiples(w: nat, k: nat, n: nat)
    requires 1 <= w <= 4
    ensures n == Times(w, k) <==> n % w == 0 && k == n / w
  {
    if w == 1 {
    } else if w == 2 {
    } else if w == 3 {
    } else {
      assert w == 4;
    }
  }

  /**
   * A long text of equally wide characters is recognised exactly unless they take three bytes each: neither
   * 8192 nor 8188 is a multiple of three. Devanagari is written in such characters.
   */
  lemma LongUniformText(chars: seq<Bytes>, w: nat)
    requires Characters(chars) && 0 !in Concat(chars) && Width(chars, w) && 1 <= w <= 4
    requires |Concat(chars)| >= SNIFF_BYTES
    ensures IsProbablyText(Head(Concat(chars))) <==> w != 3
  {
    var text := Concat(chars);
    assert Head(text) == text[..SNIFF_BYTES];
    WindowAccepted(chars, SNIFF_BYTES);
    UniformBoundary(chars, w, SNIFF_BYTES);
    UniformBoundary(chars, w, SNIFF_BYTES - 4);
  }

  // ------------------------------------------------------------ the signatures

  datatype Mime = Pdf | Png | Jpeg | Tiff | Msword | Ooxml | PlainText

  predicate StartsWith(head: Bytes, signature: Bytes) { signature <= head }

  predicate LooksLikeZip(head: Bytes) {
    StartsWith(head, [0x50, 0x4B, 0x03, 0x04]) || StartsWith(head, [0x50, 0x4B, 0x05, 0x06])
    || StartsWith(head, [0x50, 0x4B, 0x07, 0x08])
  }

  /** The first binary signature that fits. */
  function Signature(head: Bytes): Option<Mime> {
    if StartsWith(head, [0x25, 0x50, 0x44, 0x46, 0x2D]) then Some(Pdf)
    else if StartsWith(head, [0x89, 0x50, 0x4E, 0x47, 0x0D, 0x0A, 0x1A, 0x0A]) then Some(Png)
    else if StartsWith(head, [0xFF, 0xD8, 0xFF]) then Some(Jpeg)
    else if StartsWith(head, [0x49, 0x49, 0x2A, 0x00]) || StartsWith(head, [0x4D, 0x4D, 0x00, 0x2A]) then Some(Tiff)
    else if StartsWith(head, [0xD0, 0xCF, 0x11, 0xE0, 0xA1, 0xB1, 0x1A, 0xE1]) then Some(Msword)
    else if LooksLikeZip(head) then Some(Ooxml)
    else None
  }

  /** `sniff_mime`: text is considered last, and only under its own extension. */
  function SniffMime(head: Bytes, extension: string): Option<Mime> {
    var binary := Signature(head);
    if binary.Some? then binary
    else if extension == ".txt" && IsProbablyText(head) then Some(PlainText)
    else None
  }

  /** The table of leading bytes. */
  const SIGNATURES: seq<(Bytes, Mime)> :=
    [ ([0x25, 0x50, 0x44, 0x46, 0x2D], Pdf),
      ([0x89, 0x50, 0x4E, 0x47, 0x0D, 0x0A, 0x1A, 0x0A], Png),
      ([0xFF, 0xD8, 0xFF], Jpeg),
      ([0x49, 0x49, 0x2A, 0x00], Tiff), ([0x4D, 0x4D, 0x00, 0x2A], Tiff),
      ([0xD0, 0xCF, 0x11, 0xE0, 0xA1, 0xB1, 0x1A, 0xE1], Msword),
      ([0x50, 0x4B, 0x03, 0x04], Ooxml), ([0x50, 0x4B, 0x05, 0x06], Ooxml), ([0x50, 0x4B, 0x07, 0x08], Ooxml) ]

  ghost predicate Shows(head: Bytes, i: nat, m: Mime)
    requires i < |SIGNATURES|
  {
    SIGNATURES[i].0 <= head && SIGNATURES[i].1 == m
  }

  /** The order of the tests does not matter: a format is found exactly when some signature of it is there. */
  lemma SignatureIff(head: Bytes, m: Mime)
    ensures Signature(head) == Some(m) <==> exists i: nat :: i < |SIGNATURES| && Shows(head, i, m)
  {
    if Signature(head) == Some(m) {
      assert Shows(head, 0, m) || Shows(head, 1, m) || Shows(head, 2, m) || Shows(head, 3, m) || Shows(head, 4, m)
          || Shows(head, 5, m) || Shows(head, 6, m) || Shows(head, 7, m) || Shows(head, 8, m);
    }
    if i: nat :| i < |SIGNATURES| && Shows(head, i, m) {
      assert head[0] == SIGNATURES[i].0[0] && head[1] == SIGNATURES[i].0[1];
    }
  }

  ghost predicate Signed(head: Bytes, m: Mime) { exists i: nat :: i < |SIGNATURES| && Shows(head, i, m) }

  /**
   * Binary formats are told by their signatures. Plain text is what has none, is offered as ".txt", has no NUL
   * and is UTF-8 throughout or up to its last four bytes.
   */
  lemma SniffedIff(head: Bytes, extension: string, m: Mime)
    ensures var front := if |head| <= 4 then [] else head[..|head| - 4];
            SniffMime(head, extension) == Some(m) <==>
            if m == PlainText then
              (forall n :: !Signed(head, n)) && extension == ".txt" && 0 !in head && (Utf8(head) || Utf8(front))
            else Signed(head, m)
  {
    DecodesIffUtf8(head);
    DecodesIffUtf8(ButLastFour(head));
    forall n ensures Signed(head, n) <==> Signature(head) == Some(n) {
      SignatureIff(head, n);
    }
  }

  lemma ThreeByteStart(head: Bytes)
    requires head != [] && 0xE0 <= head[0] <= 0xEF
    ensures Signature(head) == None
  {
  }

  /** The text is recognised where it is cut, if it is. */
  lemma HeadAccepted(chars: seq<Bytes>)
    requires Characters(chars) && 0 !in Concat(chars)
    ensures IsProbablyText(Head(Concat(chars)))
       <==> |Concat(chars)| <= SNIFF_BYTES || Boundary(chars, SNIFF_BYTES) || Boundary(chars, SNIFF_BYTES - 4)
  {
    if |Concat(chars)| <= SNIFF_BYTES {
      WholeTextAccepted(chars);
    } else {
      WindowAccepted(chars, SNIFF_BYTES);
    }
  }

  /** No signature starts like a three-byte character, so such a text, once long, is refused as unrecognisable. */
  lemma ThreeByteTextRefused(chars: seq<Bytes>)
    requires Characters(chars) && Width(chars, 3) && |Concat(chars)| >= SNIFF_BYTES
    ensures SniffMime(Head(Concat(chars)), ".txt") == None
  {
    NoNul(chars);
    LongUniformText(chars, 3);
    assert chars == [chars[0]] + chars[1..];
    ConcatFront(chars[0], chars[1..]);
    assert Head(Concat(chars))[0] == chars[0][0];
    ThreeByteStart(Head(Concat(chars)));
  }

  lemma {:induction false} NoNul(chars: seq<Bytes>)
    requires Characters(chars) && Width(chars, 3)
    ensures 0 !in Concat(chars)
  {
    if chars != [] {
      NoNul(chars[..|chars| - 1]);
      var c := chars[|chars| - 1];
      assert c == [c[0], c[1], c[2]];
    }
  }
}
