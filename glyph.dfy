/**
 * Per-owner glyph parameters: which of the six inner-circle layouts is drawn,
 * how far the circle group is rotated, whether it is mirrored, and the hex
 * string handed to the colour-scheme library.
 *
 * The seed is the owner address read as a number; it is taken here as a
 * natural number (the numeric parse of the address is not part of this model).
 */
module Glyph {

  import opened Arith

  /** A circle centre in the 216 x 216 logical square of one glyph. */
  datatype Point = Point(x: real, y: real)

  const OriginalIcon: seq<Point> := [Point(195.75, 114.75), Point(33.75, 162.0), Point(121.5, 0.0)]
  const StripedIcon: seq<Point> := [Point(108.0, 108.0), Point(146.0, 147.0), Point(216.0, 216.0)]
  const ChompIcon: seq<Point> := [Point(108.0, 108.0), Point(108.0, -64.0), Point(108.0, 280.0)]
  const BiteIcon: seq<Point> := [Point(108.0, 108.0), Point(108.0, 0.0), Point(108.0, 216.0)]
  const TailIcon: seq<Point> := [Point(108.0, 108.0), Point(64.0, 0.0), Point(64.0, 216.0)]
  const TriadIcon: seq<Point> := [Point(108.0, 108.0), Point(32.0, 0.0), Point(32.0, 216.0)]

  /** The layouts in the order the selection indexes them. */
  const Options: seq<seq<Point>> := [OriginalIcon, StripedIcon, ChompIcon, BiteIcon, TailIcon, TriadIcon]

  /** The transform appended when the glyph is mirrored (its spelling is the program's). */
  const MirrorTransform: string := "tranlate(216, 0) scale(-1, 1)"

  /** The three circle centres used for the glyph of a seed. */
  function Circles(seed: nat): (r: seq<Point>)
    ensures |r| == 3
    ensures r in Options
  {
    Options[seed % |Options|]
  }

  /** Rotation in degrees applied to the circle group around the glyph centre. */
  function DegreesOfRotation(seed: nat): (r: nat)
    ensures r % 10 == 0 && r <= 350
    ensures r / 10 == seed % 36
  {
    (seed % 36) * 10
  }

  /** Mirror-and-shift transform for odd seeds, nothing for even ones. */
  function TranslateAndScale(seed: nat): (r: string)
    ensures r == "" <==> seed % 2 == 0
    ensures r != "" ==> r == MirrorTransform
  {
    if seed % 2 == 0 then "" else MirrorTransform
  }

  /** The six layouts are pairwise different. */
  lemma OptionsDistinct(i: nat, j: nat)
    requires i < |Options| && j < |Options|
    ensures Options[i] == Options[j] <==> i == j
  {
  }

  /** Two seeds get the same layout exactly when they agree modulo six. */
  lemma CirclesSameIff(a: nat, b: nat)
    ensures Circles(a) == Circles(b) <==> a % 6 == b % 6
  {
    OptionsDistinct(a % 6, b % 6);
  }

  /** Seeds 0 to 5 pick original, striped, chomp, bite, tail and triad, in that order. */
  lemma CirclesFirstSeeds()
    ensures Circles(0) == OriginalIcon && Circles(1) == StripedIcon && Circles(2) == ChompIcon
    ensures Circles(3) == BiteIcon && Circles(4) == TailIcon && Circles(5) == TriadIcon
  {
  }

  /** The rotation depends on the seed only through the seed modulo 36. */
  lemma RotationSameIff(a: nat, b: nat)
    ensures DegreesOfRotation(a) == DegreesOfRotation(b) <==> a % 36 == b % 36
  {
  }

  /** Seeds congruent modulo 36 share layout, rotation and mirroring. */
  lemma GlyphPeriodic(a: nat, b: nat)
    requires a % 36 == b % 36
    ensures Circles(a) == Circles(b)
    ensures DegreesOfRotation(a) == DegreesOfRotation(b)
    ensures TranslateAndScale(a) == TranslateAndScale(b)
  {
    ReduceMod36(a);
    ReduceMod36(b);
  }

  /** Six and two divide 36, so the residues modulo 6 and 2 survive reduction modulo 36. */
  lemma ReduceMod36(a: nat)
    ensures a % 6 == (a % 36) % 6 && a % 2 == (a % 36) % 2
  {
    var q, r := a / 36, a % 36;
    assert a == (6 * q + r / 6) * 6 + r % 6;
    DivModUnique(a, 6, 6 * q + r / 6, r % 6);
    assert a == (18 * q + r / 2) * 2 + r % 2;
    DivModUnique(a, 2, 18 * q + r / 2, r % 2);
  }

  /** ASCII letters a-z to upper case; every other character unchanged. */
  function UpperChar(c: char): (u: char)
    ensures 'a' <= c <= 'z' ==> u as int == c as int - 32
    ensures !('a' <= c <= 'z') ==> u == c
    ensures !('a' <= u <= 'z')
  {
    if 'a' <= c <= 'z' then (c as int - 32) as char else c
  }

  predicate IsHexDigit(c: char) {
    '0' <= c <= '9' || 'a' <= c <= 'f' || 'A' <= c <= 'F'
  }

  predicate IsUpperHexDigit(c: char) {
    '0' <= c <= '9' || 'A' <= c <= 'F'
  }

  /**
   * The colour seed: characters 2 to 7 of the address in upper case, with the
   * end points clamped to the string's length as a JavaScript substring does.
   */
  function MainColor(address: string): (r: string)
    ensures |r| == MinInt(|address|, 8) - MinInt(|address|, 2)
    ensures |address| >= 8 ==> |r| == 6
    ensures forall i :: 0 <= i < |r| ==> r[i] == UpperChar(address[i + 2])
  {
    var lo := MinInt(|address|, 2);
    var hi := MinInt(|address|, 8);
    seq(hi - lo, i requires 0 <= i < hi - lo => UpperChar(address[lo + i]))
  }

  /** For a hex-shaped address the colour seed is six upper-case hex digits. */
  lemma MainColorOfHexAddress(address: string)
    requires |address| >= 8
    requires forall i :: 2 <= i < 8 ==> IsHexDigit(address[i])
    ensures |MainColor(address)| == 6
    ensures forall i :: 0 <= i < 6 ==> IsUpperHexDigit(MainColor(address)[i])
  {
  }

  /**
   * Seeds that are multiples of 4, such as every double of magnitude above
   * 2^54, are never mirrored and only get the original, chomp or tail layout.
   */
  lemma SeedsDivisibleByFour(seed: nat)
    requires seed % 4 == 0
    ensures TranslateAndScale(seed) == ""
    ensures Circles(seed) == OriginalIcon || Circles(seed) == ChompIcon || Circles(seed) == TailIcon
  {
    var q := seed / 4;
    assert seed == (2 * q) * 2 + 0;
    DivModUnique(seed, 2, 2 * q, 0);
    // the residue modulo 6 of an even number is even
    var m, r := seed / 6, seed % 6;
    assert seed == m * 6 + r;
    assert r == (2 * q - 3 * m) * 2 + 0;
    DivModUnique(r, 2, 2 * q - 3 * m, 0);
    assert r == 0 || r == 2 || r == 4;
  }

  /** Seed 37: layout striped, rotation 10 degrees, mirrored. */
  lemma SeedThirtySeven()
    ensures Circles(37) == StripedIcon
    ensures DegreesOfRotation(37) == 10
    ensures TranslateAndScale(37) == MirrorTransform
  {
  }
}
