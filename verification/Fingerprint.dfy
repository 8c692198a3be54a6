/** The block fingerprint: first and last 256 bytes cut at character boundaries, and the length. */
module Fingerprints {
  import opened Common
  import opened InputEvents
  import Utf8

  const WINDOW: nat := 256

  datatype Fingerprint = Fingerprint(prefix: seq<byte>, suffix: seq<byte>, len: nat)

  /** UTF-8 bytes of a string. */
  function Bytes(s: string): seq<byte> {
    if s == [] then [] else Bytes(s[..|s| - 1]) + Utf8.Encode(s[|s| - 1] as int)
  }

  predicate IsBoundary(bytes: seq<byte>, i: nat) {
    i <= |bytes| && (i == 0 || i == |bytes| || !Utf8.IsContinuation(bytes[i]))
  }

  /** Largest boundary at or before `i`. */
  function Floor(bytes: seq<byte>, i: nat): (j: nat)
    requires i <= |bytes|
    ensures j <= i && IsBoundary(bytes, j)
    ensures forall k: nat :: j < k <= i ==> !IsBoundary(bytes, k)
  {
    if IsBoundary(bytes, i) then i else Floor(bytes, i - 1)
  }

  /** Smallest boundary at or after `i`. */
  function Ceil(bytes: seq<byte>, i: nat): (j: nat)
    requires i <= |bytes|
    ensures i <= j && IsBoundary(bytes, j)
    ensures forall k: nat :: i <= k < j ==> !IsBoundary(bytes, k)
    decreases |bytes| - i
  {
    if IsBoundary(bytes, i) then i else Ceil(bytes, i + 1)
  }

  /** `safe_truncate`: the longest boundary-aligned prefix within the limit. */
  method SafeTruncate(bytes: seq<byte>, limit: nat) returns (prefix: seq<byte>)
    ensures prefix <= bytes && |prefix| <= limit && IsBoundary(bytes, |prefix|)
    ensures forall k: nat :: |prefix| < k <= limit ==> !IsBoundary(bytes, k)
    ensures prefix == Prefix(bytes, limit)
  {
    if |bytes| <= limit {
      return bytes;
    }
    var end := limit;
    while end > 0 && !IsBoundary(bytes, end)
      invariant 0 <= end <= limit
      invariant forall k: nat :: end < k <= limit ==> !IsBoundary(bytes, k)
    {
      end := end - 1;
    }
    return bytes[..end];
  }

  /** `safe_suffix`: the longest boundary-aligned suffix within the limit. */
  method SafeSuffix(bytes: seq<byte>, limit: nat) returns (suffix: seq<byte>)
    ensures |suffix| <= limit && |suffix| <= |bytes|
    ensures suffix == bytes[|bytes| - |suffix|..] && IsBoundary(bytes, |bytes| - |suffix|)
    ensures forall k: nat :: |bytes| - limit <= k < |bytes| - |suffix| ==> !IsBoundary(bytes, k)
    ensures suffix == Suffix(bytes, limit)
  {
    if |bytes| <= limit {
      return bytes;
    }
    var begin := |bytes| - limit;
    while begin < |bytes| && !IsBoundary(bytes, begin)
      invariant |bytes| - limit <= begin <= |bytes|
      invariant forall k: nat :: |bytes| - limit <= k < begin ==> !IsBoundary(bytes, k)
    {
      begin := begin + 1;
    }
    return bytes[begin..];
  }

  function Prefix(bytes: seq<byte>, limit: nat): seq<byte> {
    if |bytes| <= limit then bytes else bytes[..Floor(bytes, limit)]
  }

  function Suffix(bytes: seq<byte>, limit: nat): seq<byte> {
    if |bytes| <= limit then bytes else bytes[Ceil(bytes, |bytes| - limit)..]
  }

  function Print(s: string): Fingerprint {
    Fingerprint(Prefix(Bytes(s), WINDOW), Suffix(Bytes(s), WINDOW), |Bytes(s)|)
  }

  /** `fast_hash`: the standard hasher applied to the fingerprint; the hasher stays abstract. */
  type Hasher = Fingerprint -> nat

  function FastHash(hasher: Hasher, s: string): nat { hasher(Print(s)) }

  // ---- Boundaries of encoded text ----

  lemma EncodedCharacter(c: scalar)
    ensures var e := Utf8.Encode(c);
      !Utf8.IsContinuation(e[0]) && forall i :: 1 <= i < |e| ==> Utf8.IsContinuation(e[i])
  {
    if 0x80 <= c {
      Utf8.EncodeIsSequence(c);
    }
  }

  /** Any four neighbouring positions of encoded text hold a character boundary. */
  lemma {:induction false} BoundaryWithinFour(s: string, i: nat)
    requires i + 3 <= |Bytes(s)|
    ensures exists j :: i <= j <= i + 3 && IsBoundary(Bytes(s), j)
  {
    var init, last := Bytes(s[..|s| - 1]), Utf8.Encode(s[|s| - 1] as int);
    EncodedCharacter(s[|s| - 1] as int);
    if i + 3 <= |init| {
      BoundaryWithinFour(s[..|s| - 1], i);
      var j :| i <= j <= i + 3 && IsBoundary(init, j);
      assert IsBoundary(Bytes(s), j);
    } else if i <= |init| {
      assert IsBoundary(Bytes(s), |init|);
    } else {
      assert IsBoundary(Bytes(s), |Bytes(s)|);
    }
  }

  /** On longer text both cuts lose at most three bytes of the window. */
  lemma CutsAreNearlyFull(s: string)
    requires WINDOW < |Bytes(s)|
    ensures WINDOW - 3 <= |Prefix(Bytes(s), WINDOW)| <= WINDOW
    ensures WINDOW - 3 <= |Suffix(Bytes(s), WINDOW)| <= WINDOW
  {
    BoundaryWithinFour(s, WINDOW - 3);
    BoundaryWithinFour(s, |Bytes(s)| - WINDOW);
  }

  // ---- Injectivity ----

  lemma EncodeIsInjective(c: scalar, d: scalar)
    requires Utf8.Encode(c) == Utf8.Encode(d)
    ensures c == d
  {
    if 0x80 <= c {
      Utf8.EncodeIsSequence(c);
      Utf8.DecodeInvertsEncode(Utf8.Encode(c), c);
      Utf8.DecodeInvertsEncode(Utf8.Encode(c), d);
    } else if 0x80 <= d {
      Utf8.EncodeIsSequence(d);
    }
  }

  lemma LastCharacterStart(x: seq<byte>, e: seq<byte>, y: seq<byte>, f: seq<byte>)
    requires x + e == y + f && e != []
    requires !Utf8.IsContinuation(e[0]) && forall i :: 1 <= i < |f| ==> Utf8.IsContinuation(f[i])
    ensures |f| <= |e|
  {
    assert (x + e)[|x|] == e[0];
  }

  /** Equal texts of whole characters end in the same character. */
  lemma SameLastCharacter(x: seq<byte>, c: scalar, y: seq<byte>, d: scalar)
    requires x + Utf8.Encode(c) == y + Utf8.Encode(d)
    ensures x == y && c == d
  {
    hide Utf8.Encode, Utf8.IsContinuation;
    var e, f := Utf8.Encode(c), Utf8.Encode(d);
    EncodedCharacter(c);
    EncodedCharacter(d);
    LastCharacterStart(x, e, y, f);
    LastCharacterStart(y, f, x, e);
    assert e == (x + e)[|x|..] && f == (y + f)[|y|..];
    EncodeIsInjective(c, d);
    assert x == (x + e)[..|x|] && y == (y + f)[..|y|];
  }

  lemma LastBytes(s: string)
    ensures Bytes(s) == [] <==> s == []
    ensures s != [] ==> Bytes(s) == Bytes(s[..|s| - 1]) + Utf8.Encode(s[|s| - 1] as int)
  {
  }

  lemma {:induction false} BytesAreInjective(s: string, t: string)
    requires Bytes(s) == Bytes(t)
    ensures s == t
  {
    hide Utf8.Encode, Bytes;
    LastBytes(s);
    LastBytes(t);
    if s != [] && t != [] {
      var init, init' := s[..|s| - 1], t[..|t| - 1];
      SameLastCharacter(Bytes(init), s[|s| - 1] as int, Bytes(init'), t[|t| - 1] as int);
      BytesAreInjective(init, init');
      assert s == init + [s[|s| - 1]] && t == init' + [t[|t| - 1]];
    }
  }

  lemma MeetingPieces(a: seq<byte>, b: seq<byte>, begin: nat, end: nat)
    requires |a| == |b| && begin <= end <= |a|
    requires a[..end] == b[..end] && a[begin..] == b[begin..]
    ensures a == b
  {
    assert a == a[..end] + a[begin..][end - begin..];
    assert b == b[..end] + b[begin..][end - begin..];
  }

  lemma WindowSizes(a: seq<byte>)
    requires WINDOW < |a|
    ensures |Prefix(a, WINDOW)| == Floor(a, WINDOW)
    ensures |Suffix(a, WINDOW)| == |a| - Ceil(a, |a| - WINDOW)
  {
  }

  /** Two windows that meet determine the bytes. */
  lemma MeetingWindows(a: seq<byte>, b: seq<byte>)
    requires Prefix(a, WINDOW) == Prefix(b, WINDOW) && Suffix(a, WINDOW) == Suffix(b, WINDOW) && |a| == |b|
    requires WINDOW < |a|
    requires Ceil(a, |a| - WINDOW) <= Floor(a, WINDOW)
    ensures a == b
  {
    WindowSizes(a);
    WindowSizes(b);
    MeetingPieces(a, b, Ceil(a, |a| - WINDOW), Floor(a, WINDOW));
  }

  /** A boundary in the middle makes the windows meet. */
  lemma BoundaryMakesThemMeet(a: seq<byte>, j: nat)
    requires WINDOW < |a| && |a| - WINDOW <= j <= WINDOW && IsBoundary(a, j)
    ensures Ceil(a, |a| - WINDOW) <= j <= Floor(a, WINDOW)
  {
  }

  /** The fingerprint loses nothing on texts of up to 509 bytes: equal fingerprints, equal texts. */
  lemma ShortTextsAreIdentified(s: string, t: string)
    requires |Bytes(s)| <= 2 * WINDOW - 3
    ensures Print(s) == Print(t) <==> s == t
  {
    hide Bytes, Floor, Ceil;
    if Print(s) == Print(t) {
      if WINDOW < |Bytes(s)| {
        BoundaryWithinFour(s, WINDOW - 3);
        var j :| WINDOW - 3 <= j <= WINDOW && IsBoundary(Bytes(s), j);
        BoundaryMakesThemMeet(Bytes(s), j);
        MeetingWindows(Bytes(s), Bytes(t));
      }
      BytesAreInjective(s, t);
    }
  }

  /** With a hasher that does not collide, the hash tells such a text apart from any other. */
  lemma ShortTextsHaveTheirOwnHash(hasher: Hasher, s: string, t: string)
    requires |Bytes(s)| <= 2 * WINDOW - 3
    requires forall p, q :: hasher(p) == hasher(q) ==> p == q
    ensures FastHash(hasher, s) == FastHash(hasher, t) <==> s == t
  {
    hide Print, Bytes;
    ShortTextsAreIdentified(s, t);
  }

  // ---- The bound is sharp ----

  function Repeat(c: char, n: nat): string {
    if n == 0 then [] else Repeat(c, n - 1) + [c]
  }

  lemma {:induction false} RepeatedLetter(n: nat)
    ensures |Repeat('a', n)| == n
    ensures Bytes(Repeat('a', n)) == seq(n, i => 0x61)
  {
    if n > 0 {
      RepeatedLetter(n - 1);
      assert Repeat('a', n)[..n - 1] == Repeat('a', n - 1);
      assert Utf8.Encode('a' as int) == [0x61];
    }
  }

  lemma {:induction false} BytesOfConcat(s: string, t: string)
    ensures Bytes(s + t) == Bytes(s) + Bytes(t)
  {
    hide Utf8.Encode;
    if t == [] {
      assert s + t == s;
    } else {
      var init, last := t[..|t| - 1], Utf8.Encode(t[|t| - 1] as int);
      assert (s + t)[..|s + t| - 1] == s + init;
      calc {
        Bytes(s + t);
        Bytes(s + init) + last;
        { BytesOfConcat(s, init); }
        (Bytes(s) + Bytes(init)) + last;
        { assert (Bytes(s) + Bytes(init)) + last == Bytes(s) + (Bytes(init) + last); }
        Bytes(s) + Bytes(t);
      }
    }
  }

  /** 253 letters, one four-byte character, 253 letters. */
  function Straddling(c: char): string { Repeat('a', WINDOW - 3) + [c] + Repeat('a', WINDOW - 3) }

  lemma StraddlingBytes(c: char)
    requires 0x1_0000 <= c as int
    ensures var side: seq<byte> := seq(WINDOW - 3, i => 0x61);
      Bytes(Straddling(c)) == side + Utf8.Encode(c as int) + side
  {
    var letters := Repeat('a', WINDOW - 3);
    RepeatedLetter(WINDOW - 3);
    BytesOfConcat(letters + [c], letters);
    BytesOfConcat(letters, [c]);
    assert [c][..0] == [];
    assert Bytes([c]) == Utf8.Encode(c as int);
  }

  lemma StraddlingPrint(c: char)
    requires 0x1_0000 <= c as int
    ensures var side: seq<byte> := seq(WINDOW - 3, i => 0x61);
      Print(Straddling(c)) == Fingerprint(side, side, 2 * WINDOW - 2)
  {
    var side: seq<byte> := seq(WINDOW - 3, i => 0x61);
    var e := Utf8.Encode(c as int);
    var a := Bytes(Straddling(c));
    StraddlingBytes(c);
    EncodedCharacter(c as int);
    assert |a| == 2 * WINDOW - 2;
    assert a[WINDOW - 3] == e[0] && a[WINDOW - 2] == e[1] && a[WINDOW - 1] == e[2] && a[WINDOW] == e[3];
    assert a[WINDOW + 1] == 0x61;
    assert IsBoundary(a, WINDOW - 3) && IsBoundary(a, WINDOW + 1);
    assert !IsBoundary(a, WINDOW - 2) && !IsBoundary(a, WINDOW - 1) && !IsBoundary(a, WINDOW);
    assert Floor(a, WINDOW) == WINDOW - 3;
    assert Ceil(a, WINDOW - 2) == WINDOW + 1;
    assert a[..WINDOW - 3] == side && a[WINDOW + 1..] == side;
  }

  /** One byte more and the fingerprint can lose a character: these texts of 510 bytes differ. */
  lemma LongerTextsCanCollide(c: char, d: char)
    requires 0x1_0000 <= c as int && 0x1_0000 <= d as int && c != d
    ensures |Bytes(Straddling(c))| == 2 * WINDOW - 2
    ensures Straddling(c) != Straddling(d)
    ensures Print(Straddling(c)) == Print(Straddling(d))
  {
    StraddlingBytes(c);
    StraddlingPrint(c);
    StraddlingPrint(d);
    RepeatedLetter(WINDOW - 3);
    assert Straddling(c)[WINDOW - 3] == c && Straddling(d)[WINDOW - 3] == d;
  }

  // ---- Which texts are identified ----

  /** The two windows leave at least one character between them. */
  predicate HasGap(b: seq<byte>) { WINDOW < |b| && Floor(b, WINDOW) < Ceil(b, |b| - WINDOW) }

  /** Another character whose encoding has the same length. */
  function Neighbour(c: char): (d: char)
    ensures d != c && |Utf8.Encode(d as int)| == |Utf8.Encode(c as int)|
  {
    if c as int < 0x80 then (if c == 'a' then 'b' else 'a')
    else if c as int < 0x800 then (if c == '\U{e8}' then '\U{e9}' else '\U{e8}')
    else if c as int < 0x1_0000 then (if c == '\U{20ac}' then '\U{20ad}' else '\U{20ac}')
    else if c == '\U{1f600}' then '\U{1f601}' else '\U{1f600}'
  }

  /** The boundaries of encoded text are the ends of its prefixes. */
  lemma {:induction false} BoundaryEndsPrefix(s: string, i: nat) returns (k: nat)
    requires IsBoundary(Bytes(s), i)
    ensures k <= |s| && |Bytes(s[..k])| == i
  {
    hide Utf8.Encode, Utf8.IsContinuation;
    if i == |Bytes(s)| {
      assert s[..|s|] == s;
      k := |s|;
    } else {
      var init := s[..|s| - 1];
      EncodedCharacter(s[|s| - 1] as int);
      if i < |Bytes(init)| {
        assert Bytes(s)[i] == Bytes(init)[i];
        k := BoundaryEndsPrefix(init, i);
        assert init[..k] == s[..k];
      } else {
        assert Bytes(s)[i] == Utf8.Encode(s[|s| - 1] as int)[i - |Bytes(init)|];
        k := |s| - 1;
      }
    }
  }

  lemma BytesAround(s: string, k: nat)
    requires k < |s|
    ensures Bytes(s) == Bytes(s[..k]) + Utf8.Encode(s[k] as int) + Bytes(s[k + 1..])
  {
    hide Utf8.Encode;
    var front := s[..k + 1];
    assert front[..k] == s[..k] && front + s[k + 1..] == s;
    BytesOfConcat(front, s[k + 1..]);
    assert Bytes(front) == Bytes(front[..k]) + Utf8.Encode(front[k] as int);
  }

  /** Inside a character there is no boundary. */
  lemma NoBoundaryInside(x: seq<byte>, c: char, y: seq<byte>, i: nat)
    requires |x| < i < |x + Utf8.Encode(c as int)|
    ensures !IsBoundary(x + Utf8.Encode(c as int) + y, i)
  {
    hide Utf8.Encode, Utf8.IsContinuation;
    EncodedCharacter(c as int);
    assert (x + Utf8.Encode(c as int) + y)[i] == Utf8.Encode(c as int)[i - |x|];
  }

  ghost predicate SameBoundaries(a: seq<byte>, b: seq<byte>) {
    |a| == |b| && forall i: nat :: IsBoundary(a, i) <==> IsBoundary(b, i)
  }

  lemma SameCuts(a: seq<byte>, b: seq<byte>)
    requires WINDOW < |a| && SameBoundaries(a, b)
    ensures Floor(a, WINDOW) == Floor(b, WINDOW) && Ceil(a, |a| - WINDOW) == Ceil(b, |b| - WINDOW)
  {
    hide IsBoundary;
    assert IsBoundary(b, Floor(a, WINDOW)) && IsBoundary(a, Floor(b, WINDOW));
    assert IsBoundary(b, Ceil(a, |a| - WINDOW)) && IsBoundary(a, Ceil(b, |a| - WINDOW));
  }

  /** Replacing one character by another of the same length moves no boundary. */
  lemma ReplacedBoundaries(x: seq<byte>, c: char, d: char, y: seq<byte>)
    requires |Utf8.Encode(c as int)| == |Utf8.Encode(d as int)|
    ensures SameBoundaries(x + Utf8.Encode(c as int) + y, x + Utf8.Encode(d as int) + y)
  {
    hide Utf8.Encode, Utf8.IsContinuation;
    var e, f := Utf8.Encode(c as int), Utf8.Encode(d as int);
    EncodedCharacter(c as int);
    EncodedCharacter(d as int);
    var a, b := x + e + y, x + f + y;
    forall i: nat | i < |a| ensures Utf8.IsContinuation(a[i]) <==> Utf8.IsContinuation(b[i]) {
      if |x| <= i < |x + e| {
        assert a[i] == e[i - |x|] && b[i] == f[i - |x|];
      } else {
        assert a[i] == b[i];
      }
    }
  }

  /** A character between the windows can be exchanged without changing the fingerprint. */
  lemma GapIsUnseen(x: seq<byte>, c: char, d: char, y: seq<byte>)
    requires |Utf8.Encode(c as int)| == |Utf8.Encode(d as int)|
    requires var a := x + Utf8.Encode(c as int) + y;
      WINDOW < |a| && Floor(a, WINDOW) == |x| < Ceil(a, |a| - WINDOW)
    ensures var a, b := x + Utf8.Encode(c as int) + y, x + Utf8.Encode(d as int) + y;
      Prefix(a, WINDOW) == Prefix(b, WINDOW) && Suffix(a, WINDOW) == Suffix(b, WINDOW) && |a| == |b|
  {
    hide Utf8.Encode, Utf8.IsContinuation, Floor, Ceil;
    var e, f := Utf8.Encode(c as int), Utf8.Encode(d as int);
    var a, b := x + e + y, x + f + y;
    var end := Ceil(a, |a| - WINDOW);
    if end < |x + e| {
      NoBoundaryInside(x, c, y, end);
    }
    ReplacedBoundaries(x, c, d, y);
    SameCuts(a, b);
    assert a[..|x|] == x == b[..|x|];
    assert a[end..] == y[end - |x + e|..] == b[end..];
  }

  /** A text shares its fingerprint with another text exactly when its two windows leave a gap. */
  lemma SharedIffGap(s: string)
    ensures (exists t :: t != s && Print(t) == Print(s)) <==> HasGap(Bytes(s))
  {
    hide Bytes, Floor, Ceil, Neighbour, Utf8.Encode;
    var b := Bytes(s);
    if HasGap(b) {
      var k := BoundaryEndsPrefix(s, Floor(b, WINDOW));
      assert s[..|s|] == s;
      BytesAround(s, k);
      var t := s[k := Neighbour(s[k])];
      assert t[..k] == s[..k] && t[k + 1..] == s[k + 1..] && t[k] == Neighbour(s[k]);
      BytesAround(t, k);
      GapIsUnseen(Bytes(s[..k]), s[k], t[k], Bytes(s[k + 1..]));
      assert t != s && Print(t) == Print(s);
    } else if t :| t != s && Print(t) == Print(s) {
      if WINDOW < |b| {
        MeetingWindows(b, Bytes(t));
      }
      BytesAreInjective(s, t);
    }
  }

  lemma {:induction false} OneByteCharacters(s: string)
    requires forall i :: 0 <= i < |s| ==> s[i] as int < 0x80
    ensures |Bytes(s)| == |s| && forall i :: 0 <= i < |s| ==> Bytes(s)[i] < 0x80
  {
    if s != [] {
      OneByteCharacters(s[..|s| - 1]);
    }
  }

  /** ASCII text is identified up to 512 bytes and no further. */
  lemma AsciiIsIdentified(s: string)
    requires forall i :: 0 <= i < |s| ==> s[i] as int < 0x80
    ensures (forall t :: Print(t) == Print(s) ==> t == s) <==> |s| <= 2 * WINDOW
  {
    hide Bytes, Print;
    OneByteCharacters(s);
    SharedIffGap(s);
    var b := Bytes(s);
    if WINDOW < |b| {
      assert IsBoundary(b, WINDOW) && IsBoundary(b, |b| - WINDOW);
      assert Floor(b, WINDOW) == WINDOW && Ceil(b, |b| - WINDOW) == |b| - WINDOW;
    }
  }
}
