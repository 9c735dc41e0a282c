/** File names of the frame images and the naming rule the pre-deployment
    check enforces on them.

    The player numbers its images from 1 and pads the number to four
    decimal digits (`frame_0001.jpg` … `frame_0251.jpg`); the deployment
    check accepts exactly the names `frame_` + four digits + `.jpg`/`.png`.
    The lemmas at the end connect the two: the player's names pass the
    check exactly while the number fits in four digits, and the number can
    be read back from the name. */
module FrameNaming {

  /** `\d` of a JavaScript regular expression without the `u` flag: an ASCII digit. */
  predicate IsDigit(c: char) {
    '0' <= c <= '9'
  }

  function DigitValue(c: char): (d: nat)
    requires IsDigit(c)
    ensures d < 10
  {
    c as int - '0' as int
  }

  function DigitChar(d: nat): (c: char)
    requires d < 10
    ensures IsDigit(c) && DigitValue(c) == d
  {
    ('0' as int + d) as char
  }

  function Pow10(k: nat): (p: nat)
    ensures p >= 1
  {
    if k == 0 then 1 else 10 * Pow10(k - 1)
  }

  /** `n.toString()` for a non-negative integer: its decimal digits, no leading zero. */
  function ToDecimal(n: nat): (s: string)
    ensures |s| >= 1
    ensures forall j :: 0 <= j < |s| ==> IsDigit(s[j])
    ensures |s| > 1 ==> s[0] != '0'
    decreases n
  {
    if n < 10 then [DigitChar(n)] else ToDecimal(n / 10) + [DigitChar(n % 10)]
  }

  /** The value of a string of decimal digits, read most significant first. */
  function ParseDecimal(s: string): (n: nat)
    requires forall j :: 0 <= j < |s| ==> IsDigit(s[j])
    ensures n < Pow10(|s|)
  {
    if s == [] then 0 else 10 * ParseDecimal(s[..|s| - 1]) + DigitValue(s[|s| - 1])
  }

  /** `s.padStart(width, fill)`: prepend `fill` until `s` is `width` long; a
      string already that long or longer is returned unchanged. */
  function PadStart(s: string, width: nat, fill: char): (r: string)
    ensures |r| == if |s| >= width then |s| else width
    ensures r[|r| - |s|..] == s
    ensures forall j :: 0 <= j < |r| - |s| ==> r[j] == fill
  {
    if |s| >= width then s else seq(width - |s|, _ => fill) + s
  }

  /** The file name the player requests for the 0-based frame index `i`:
      `frame_` + the 1-based number padded to four digits + `.jpg`. */
  function FrameFileName(i: nat): string {
    "frame_" + PadStart(ToDecimal(i + 1), 4, '0') + ".jpg"
  }

  /** The image source the player assigns to frame `i`. */
  function FrameSource(i: nat): string {
    "./frames/" + FrameFileName(i)
  }

  /** `name.endsWith(suffix)`. */
  predicate EndsWith(name: string, suffix: string) {
    |suffix| <= |name| && name[|name| - |suffix|..] == suffix
  }

  /** The listing filter of the deployment check: a `.jpg` or `.png` entry. */
  predicate IsImageFile(name: string) {
    EndsWith(name, ".jpg") || EndsWith(name, ".png")
  }

  /** The naming rule `^frame_\d{4}\.(jpg|png)$`, matched against the whole name. */
  predicate ValidFrameName(name: string) {
    && |name| == 14
    && name[..6] == "frame_"
    && (forall j :: 6 <= j < 10 ==> IsDigit(name[j]))
    && name[10] == '.'
    && (name[11..] == "jpg" || name[11..] == "png")
  }

  /** The frame number written in a valid frame name. */
  function FrameNumber(name: string): (n: nat)
    requires ValidFrameName(name)
    ensures n < 10000
  {
    assert Pow10(4) == 10000;
    ParseDecimal(name[6..10])
  }

  lemma {:induction false} DecimalLength(n: nat, k: nat)
    requires k >= 1
    ensures |ToDecimal(n)| <= k <==> n < Pow10(k)
    decreases n
  {
    if n >= 10 {
      if k > 1 {
        DecimalLength(n / 10, k - 1);
      }
    }
  }

  lemma {:induction false} ParseToDecimal(n: nat)
    ensures ParseDecimal(ToDecimal(n)) == n
    decreases n
  {
    var s := ToDecimal(n);
    if n >= 10 {
      ParseToDecimal(n / 10);
      assert s[..|s| - 1] == ToDecimal(n / 10);
    } else {
      assert s[..|s| - 1] == [];
    }
  }

  /** Leading zeros do not change the value of a digit string. */
  lemma {:induction false} ParseLeadingZeros(z: nat, s: string)
    requires forall j :: 0 <= j < |s| ==> IsDigit(s[j])
    ensures ParseDecimal(seq(z, _ => '0') + s) == ParseDecimal(s)
    decreases |s|
  {
    var t := seq(z, _ => '0') + s;
    if s == [] {
      ParseZeros(z);
      assert t == seq(z, _ => '0');
    } else {
      assert t[..|t| - 1] == seq(z, _ => '0') + s[..|s| - 1];
      ParseLeadingZeros(z, s[..|s| - 1]);
    }
  }

  lemma {:induction false} ParseZeros(z: nat)
    ensures ParseDecimal(seq(z, _ => '0')) == 0
  {
    if z > 0 {
      assert seq(z, _ => '0')[..z - 1] == seq(z - 1, _ => '0');
      ParseZeros(z - 1);
    }
  }

  /** The deployment check accepts the name the player gives frame `i`
      exactly when the frame number `i + 1` fits in four digits. */
  lemma FrameFileNameValid(i: nat)
    ensures ValidFrameName(FrameFileName(i)) <==> i + 1 < 10000
  {
    var digits := ToDecimal(i + 1);
    var padded := PadStart(digits, 4, '0');
    var name := FrameFileName(i);
    DecimalLength(i + 1, 4);
    assert name == "frame_" + padded + ".jpg";
    if i + 1 < 10000 {
      assert |padded| == 4;
      assert name[..6] == "frame_";
      forall j | 6 <= j < 10 ensures IsDigit(name[j]) {
        assert name[j] == padded[j - 6];
        if j - 6 >= 4 - |digits| {
          assert padded[j - 6] == digits[j - 6 - (4 - |digits|)];
        }
      }
      assert name[10..] == ".jpg";
    } else {
      assert |padded| >= 5;
    }
  }

  /** The number read back from a frame's file name is its 1-based position. */
  lemma FrameNumberRoundTrip(i: nat)
    requires i + 1 < 10000
    ensures ValidFrameName(FrameFileName(i))
    ensures FrameNumber(FrameFileName(i)) == i + 1
  {
    FrameFileNameValid(i);
    var digits := ToDecimal(i + 1);
    var padded := PadStart(digits, 4, '0');
    DecimalLength(i + 1, 4);
    assert FrameFileName(i)[6..10] == padded;
    assert padded == seq(4 - |digits|, _ => '0') + digits;
    ParseLeadingZeros(4 - |digits|, digits);
    ParseToDecimal(i + 1);
  }

  /** Different frames get different file names. */
  lemma FrameFileNameInjective(i: nat, j: nat)
    requires i + 1 < 10000 && j + 1 < 10000
    requires FrameFileName(i) == FrameFileName(j)
    ensures i == j
  {
    FrameNumberRoundTrip(i);
    FrameNumberRoundTrip(j);
  }

  /** Every name that passes the naming rule also passes the listing filter. */
  lemma ValidNameIsImageFile(name: string)
    requires ValidFrameName(name)
    ensures IsImageFile(name)
  {
    assert name[10..] == ['.'] + name[11..];
  }
}
