/**
 * The image store: every saved tile gets the file name
 * "<prefix><unix seconds>_<index>.png" inside the output folder, where the
 * index is a per-process counter that starts at 0 and is post-incremented by
 * each save. The clock reading is a parameter; the write itself is not modelled.
 */
module Store {

  const OutFolder: string := "out"
  const OutImgNamePrefix: string := ""

  predicate IsDigit(c: char) { '0' <= c <= '9' }

  function DigitChar(d: nat): (c: char)
    requires d < 10
    ensures IsDigit(c) && DigitValue(c) == d
  {
    ('0' as int + d) as char
  }

  function DigitValue(c: char): (d: nat)
    requires IsDigit(c)
    ensures d < 10
  {
    c as int - '0' as int
  }

  /** The decimal digits `printf` writes for an unsigned value. */
  function DecimalString(n: nat): (s: string)
    ensures |s| >= 1 && forall k :: 0 <= k < |s| ==> IsDigit(s[k])
    ensures s[0] == '0' ==> n == 0 && s == "0"
  {
    if n < 10 then [DigitChar(n)] else DecimalString(n / 10) + [DigitChar(n % 10)]
  }

  /** The value of a string of decimal digits. */
  function DecimalValue(s: string): nat
    requires forall k :: 0 <= k < |s| ==> IsDigit(s[k])
  {
    if s == [] then 0
    else DecimalValue(s[..|s| - 1]) * 10 + DigitValue(s[|s| - 1])
  }

  /** Reading the digits back gives the number that was formatted. */
  lemma {:induction false} DecimalRoundTrip(n: nat)
    ensures DecimalValue(DecimalString(n)) == n
  {
    var s := DecimalString(n);
    if n >= 10 {
      assert s[..|s| - 1] == DecimalString(n / 10);
      DecimalRoundTrip(n / 10);
    }
  }

  lemma DecimalStringInjective(m: nat, n: nat)
    requires DecimalString(m) == DecimalString(n)
    ensures m == n
  {
    DecimalRoundTrip(m);
    DecimalRoundTrip(n);
  }

  /** sprintf(OUT_FILENAME_FMT, time, index): "<time>_<index>.png". */
  function BaseName(now: nat, index: nat): string
  {
    DecimalString(now) + "_" + DecimalString(index) + ".png"
  }

  /** The file name: the base name, with the prefix put in front when it is not empty. */
  function FileName(prefix: string, now: nat, index: nat): string
  {
    var base := BaseName(now, index);
    if 0 < |prefix| then prefix + base else base
  }

  /** The path written to: the output folder, a slash, the file name. */
  function OutPath(prefix: string, now: nat, index: nat): string
  {
    OutFolder + "/" + FileName(prefix, now, index)
  }

  /** In a digit string followed by "_", the first underscore is the one after the digits. */
  lemma UnderscoreAfterDigits(a: string, b: string)
    requires forall k :: 0 <= k < |a| ==> IsDigit(a[k])
    ensures (a + "_" + b)[|a|] == '_'
    ensures forall k :: 0 <= k < |a| ==> (a + "_" + b)[k] != '_'
  {
    forall k | 0 <= k < |a|
      ensures (a + "_" + b)[k] != '_'
    {
      assert (a + "_" + b)[k] == a[k];
    }
  }

  /** A digit string followed by "_" is split at that underscore only. */
  lemma SplitAtUnderscore(a: string, b: string, c: string, d: string)
    requires forall k :: 0 <= k < |a| ==> IsDigit(a[k])
    requires forall k :: 0 <= k < |c| ==> IsDigit(c[k])
    requires a + "_" + b == c + "_" + d
    ensures a == c && b == d
  {
    var s := a + "_" + b;
    UnderscoreAfterDigits(a, b);
    UnderscoreAfterDigits(c, d);
    assert |a| == |c|;
    assert a == s[..|a|] == c;
    assert b == s[|a| + 1..] == d;
  }

  lemma CancelLeft(x: string, y1: string, y2: string)
    requires x + y1 == x + y2
    ensures y1 == y2
  {
    assert y1 == (x + y1)[|x|..];
    assert y2 == (x + y2)[|x|..];
  }

  lemma CancelRight(y1: string, y2: string, z: string)
    requires y1 + z == y2 + z
    ensures y1 == y2
  {
    assert y1 == (y1 + z)[..|y1|];
    assert y2 == (y2 + z)[..|y2|];
  }

  lemma PathShape(prefix: string, t: nat, i: nat)
    ensures OutPath(prefix, t, i) ==
      (OutFolder + "/" + prefix) + ((DecimalString(t) + "_" + DecimalString(i)) + ".png")
  {
    var a, b, c, d, e := OutFolder + "/", prefix, DecimalString(t), "_", DecimalString(i);
    if 0 < |prefix| {
      assert FileName(prefix, t, i) == b + (c + d + e + ".png");
    } else {
      assert FileName(prefix, t, i) == c + d + e + ".png";
    }
    assert a + (b + (c + d + e + ".png")) == (a + b) + ((c + d + e) + ".png");
  }

  /**
   * Two saves with the same prefix write the same path only when both the
   * clock reading and the index agree: paths of one run never collide.
   */
  lemma OutPathInjective(prefix: string, t1: nat, i1: nat, t2: nat, i2: nat)
    requires OutPath(prefix, t1, i1) == OutPath(prefix, t2, i2)
    ensures t1 == t2 && i1 == i2
  {
    var head := OutFolder + "/" + prefix;
    var m1 := DecimalString(t1) + "_" + DecimalString(i1);
    var m2 := DecimalString(t2) + "_" + DecimalString(i2);
    PathShape(prefix, t1, i1);
    PathShape(prefix, t2, i2);
    CancelLeft(head, m1 + ".png", m2 + ".png");
    CancelRight(m1, m2, ".png");
    SplitAtUnderscore(DecimalString(t1), DecimalString(i1), DecimalString(t2), DecimalString(i2));
    DecimalStringInjective(t1, t2);
    DecimalStringInjective(i1, i2);
  }

  /** The paths of consecutive saves, one index apart, are pairwise different. */
  lemma SavedPathsDistinct(prefix: string, clock: seq<nat>, start: nat, paths: seq<string>)
    requires |paths| == |clock|
    requires forall k :: 0 <= k < |paths| ==> paths[k] == OutPath(prefix, clock[k], start + k)
    ensures forall j, k :: 0 <= j < k < |paths| ==> paths[j] != paths[k]
  {
    forall j, k | 0 <= j < k < |paths|
      ensures paths[j] != paths[k]
    {
      if paths[j] == paths[k] {
        OutPathInjective(prefix, clock[j], start + j, clock[k], start + k);
      }
    }
  }

  /** ImgStore: the output index and the path construction of `save`. */
  class ImgStore {
    var index: nat

    constructor ()
      ensures index == 0
    {
      index := 0;
    }

    /** save: names the file after the index before the increment, then increments it. */
    method Save(now: nat) returns (path: string)
      modifies this
      ensures index == old(index) + 1
      ensures path == OutPath(OutImgNamePrefix, now, old(index))
    {
      var baseName := BaseName(now, index);
      index := index + 1;
      var filename := baseName;
      if 0 < |OutImgNamePrefix| {
        filename := OutImgNamePrefix + filename;
      }
      path := OutFolder + "/" + filename;
    }
  }
}
