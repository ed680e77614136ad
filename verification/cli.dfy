/** `parseSize`: the `--size WxH` option. */
module CommandLine {
  import opened Wrappers
  import opened Text

  /** Width and height, or `None` where the source returns `false`: no
      `x`, a side that `stoi` rejects (no digits, or out of `int` range),
      or a side that is not positive. Text after a side's digits is
      ignored, as `stoi` ignores it. */
  function ParseSize(s: string): (r: Option<(int, int)>)
    ensures Find(s, 'x', 0).None? ==> r.None?
    ensures r.Some? ==> 0 < r.value.0 <= IntMax && 0 < r.value.1 <= IntMax
  {
    match Find(s, 'x', 0)
    case None => None
    case Some(x) =>
      match (ParseInt(s[..x]), ParseInt(s[x + 1..]))
      case (Some(w), Some(h)) => if w > 0 && h > 0 then Some((w, h)) else None
      case _ => None
  }

  /** The text of a size as the usage line shows it, `640x640`. */
  function SizeText(w: nat, h: nat): string {
    ToDecimal(w) + "x" + ToDecimal(h)
  }

  /** Every positive size that fits an `int` reads back from its text. */
  lemma ParseSizeReadsBack(w: nat, h: nat)
    requires 0 < w <= IntMax && 0 < h <= IntMax
    ensures ParseSize(SizeText(w, h)) == Some((w, h))
  {
    var s := SizeText(w, h);
    var d := ToDecimal(w);
    assert s == d + ['x'] + ToDecimal(h);
    FindAfterPrefix(d, 'x', ToDecimal(h));
    assert s[..|d|] == d + [];
    assert s[|d| + 1..] == ToDecimal(h) + [];
    ParseIntOfDecimal(w, []);
    ParseIntOfDecimal(h, []);
  }

  /** The text is split at its first `x`: a size is accepted exactly when
      `stoi` reads both sides and both are positive. */
  lemma ParseSizeSplitsAtFirstX(a: string, b: string, w: int, h: int)
    requires Lacks(a, 'x')
    ensures ParseSize(a + "x" + b) == Some((w, h)) <==>
              ParseInt(a) == Some(w) && ParseInt(b) == Some(h) && w > 0 && h > 0
    ensures ParseSize(a + "x" + b).None? <==>
              ParseInt(a).None? || ParseInt(b).None? || ParseInt(a).value <= 0 || ParseInt(b).value <= 0
  {
    var s := a + "x" + b;
    FindAfterPrefix(a, 'x', b);
    assert s[..|a|] == a;
    assert s[|a| + 1..] == b;
  }

  /** A side that `stoi` reads as zero or negative refuses the size. */
  lemma ParseSizeRefusesNonPositive(a: string, b: string)
    requires Lacks(a, 'x')
    requires (ParseInt(a).Some? && ParseInt(a).value <= 0) || (ParseInt(b).Some? && ParseInt(b).value <= 0)
    ensures ParseSize(a + "x" + b) == None
  {
    ParseSizeSplitsAtFirstX(a, b, 0, 0);
  }

  /** `0x480` and `640x0` are refused ... */
  lemma ParseSizeRefusesZero()
    ensures ParseSize("0x480") == None
    ensures ParseSize("640x0") == None
  {
    ParseIntOfDecimal(0, []);
    assert ToDecimal(0) + [] == "0";
    assert "0x480" == "0" + "x" + "480";
    ParseSizeRefusesNonPositive("0", "480");
    assert "640x0" == "640" + "x" + "0";
    ParseSizeRefusesNonPositive("640", "0");
  }

  /** ... and so is `640x-5`. */
  lemma ParseSizeRefusesNegative()
    ensures ParseSize("640x-5") == None
  {
    ParseIntOfNegative(5);
    assert ToDecimal(5) == "5";
    assert "640x-5" == "640" + "x" + "-5";
    ParseSizeRefusesNonPositive("640", "-5");
  }
}
