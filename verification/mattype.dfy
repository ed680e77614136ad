/** `typeToString`: the name of an OpenCV matrix element type, such as
    `8UC3`. A type packs a depth code in its low three bits and the channel
    count minus one above them. */
module MatType {
  import opened Text

  /** `CV_CN_SHIFT` and `CV_CN_MAX` from OpenCV's core type header. */
  const ChannelShift: nat := 3
  const CnMax: nat := 512

  /** `CV_MAKETYPE(depth, cn)`. */
  function MakeType(depth: nat, cn: nat): (t: int)
    requires depth < 8 && 1 <= cn
    ensures 0 <= t
  {
    depth + (cn - 1) * 8
  }

  /** The depth is the type's low three bits; on a two's-complement `int`
      masking them off is the Euclidean remainder by 8. */
  function Depth(t: int): (d: nat)
    ensures d < 8 && (t - d) % 8 == 0
  {
    t % 8
  }

  /** The channel count, one more than the type shifted right past the
      depth bits, before it is narrowed; the arithmetic shift floors, as
      Euclidean division by 8 does. */
  function WideChannels(t: int): (c: int)
    ensures t == 8 * (c - 1) + Depth(t)
  {
    1 + t / 8
  }

  /** The channel count as the source stores it, in an unsigned byte:
      kept modulo 256. */
  function NarrowChannels(t: int): (c: nat)
    ensures c < 256 && (WideChannels(t) - c) % 256 == 0
  {
    WideChannels(t) % 256
  }

  /** The depth names, `CV_8U` to `CV_64F`; anything else (for instance
      `CV_16F`, code 7) is a user type. */
  function DepthTag(d: nat): (s: string)
    ensures Lacks(s, 'C')
  {
    match d
    case 0 => "8U"
    case 1 => "8S"
    case 2 => "16U"
    case 3 => "16S"
    case 4 => "32S"
    case 5 => "32F"
    case 6 => "64F"
    case _ => "User"
  }

  predicate KnownDepth(d: nat) { d < 7 }

  /** The source's `typeToString`, with its byte-sized channel count: the
      depth tag, `C`, and digits without a leading zero whose value is one
      more than `t` shifted right by three, modulo 256. */
  function TypeToString(t: int): (s: string)
    ensures var tag := DepthTag(Depth(t));
            && |tag| + 1 < |s| && s[..|tag|] == tag && s[|tag|] == 'C'
            && AllDigits(s[|tag| + 1..]) && DigitsValue(s[|tag| + 1..]) == (1 + t / 8) % 256
            && (s[|tag| + 1] == '0' ==> |s| == |tag| + 2)
  {
    var tag := DepthTag(Depth(t));
    var digits := ToDecimal(NarrowChannels(t));
    var s := tag + "C" + digits;
    assert s[..|tag|] == tag && s[|tag| + 1..] == digits;
    DigitsValueOfDecimal(NarrowChannels(t));
    s
  }

  /** The same name with the channel count kept in an `int`. */
  function TypeToStringWide(t: int): (s: string)
    requires 0 <= t
  {
    DepthTag(Depth(t)) + "C" + ToDecimal(WideChannels(t))
  }

  /** Depth and channel count can be read back out of a type. */
  lemma MakeTypeParts(depth: nat, cn: nat)
    requires depth < 8 && 1 <= cn
    ensures Depth(MakeType(depth, cn)) == depth
    ensures WideChannels(MakeType(depth, cn)) == cn
  {
    var t := MakeType(depth, cn);
    assert t == 8 * (cn - 1) + depth;
  }

  /** Every type with a named depth prints as its depth and channel count,
      within the channel range `typeToString` can hold. */
  lemma TypeToStringOfMakeType(depth: nat, cn: nat)
    requires depth < 8 && 1 <= cn < 256
    ensures TypeToString(MakeType(depth, cn)) == DepthTag(depth) + "C" + ToDecimal(cn)
  {
    MakeTypeParts(depth, cn);
    assert NarrowChannels(MakeType(depth, cn)) == cn % 256 == cn;
  }

  /** With a wide channel count the same holds up to `CV_CN_MAX`. */
  lemma TypeToStringWideOfMakeType(depth: nat, cn: nat)
    requires depth < 8 && 1 <= cn <= CnMax
    ensures TypeToStringWide(MakeType(depth, cn)) == DepthTag(depth) + "C" + ToDecimal(cn)
  {
    MakeTypeParts(depth, cn);
  }

  /** Names that differ before the `C` differ; after it, the decimal part
      decides. */
  lemma SplitAtC(a: string, m: string, b: string, n: string)
    requires Lacks(a, 'C')
    requires Lacks(b, 'C')
    requires a + "C" + m == b + "C" + n
    ensures a == b && m == n
  {
    var s := a + "C" + m;
    assert s[|a|] == 'C' && s[|b|] == 'C';
    assert a == s[..|a|];
    assert b == (b + "C" + n)[..|b|];
    assert m == s[|a| + 1..];
    assert n == (b + "C" + n)[|b| + 1..];
  }

  lemma DepthTagInjective(d: nat, e: nat)
    requires KnownDepth(d) && KnownDepth(e) && DepthTag(d) == DepthTag(e)
    ensures d == e
  {
  }

  /** The corrected name tells apart every type of a named depth with
      `CV_CN_MAX` channels or fewer. */
  lemma TypeToStringWideInjective(t: int, u: int)
    requires 0 <= t < CnMax * 8 && 0 <= u < CnMax * 8
    requires KnownDepth(Depth(t)) && KnownDepth(Depth(u))
    requires TypeToStringWide(t) == TypeToStringWide(u)
    ensures t == u
  {
    SplitAtC(DepthTag(Depth(t)), ToDecimal(WideChannels(t)), DepthTag(Depth(u)), ToDecimal(WideChannels(u)));
    DepthTagInjective(Depth(t), Depth(u));
    ToDecimalInjective(WideChannels(t), WideChannels(u));
  }

  /** The source's name does so only below 256 channels. */
  lemma TypeToStringInjective(t: int, u: int)
    requires 0 <= t < 256 * 8 - 8 && 0 <= u < 256 * 8 - 8
    requires KnownDepth(Depth(t)) && KnownDepth(Depth(u))
    requires TypeToString(t) == TypeToString(u)
    ensures t == u
  {
    TypeToStringParts(t);
    TypeToStringParts(u);
    NarrowNameInjective(t, u);
  }

  lemma NarrowNameInjective(t: int, u: int)
    requires 0 <= t < 256 * 8 - 8 && 0 <= u < 256 * 8 - 8
    requires KnownDepth(Depth(t)) && KnownDepth(Depth(u))
    requires DepthTag(Depth(t)) + "C" + ToDecimal(NarrowChannels(t))
          == DepthTag(Depth(u)) + "C" + ToDecimal(NarrowChannels(u))
    ensures t == u
  {
    SplitAtC(DepthTag(Depth(t)), ToDecimal(NarrowChannels(t)), DepthTag(Depth(u)), ToDecimal(NarrowChannels(u)));
    DepthTagInjective(Depth(t), Depth(u));
    ToDecimalInjective(NarrowChannels(t), NarrowChannels(u));
  }

  lemma TypeToStringParts(t: int)
    ensures TypeToString(t) == DepthTag(Depth(t)) + "C" + ToDecimal(NarrowChannels(t))
  {
  }

  /** `CV_8UC(256)` prints with zero channels ... */
  lemma NarrowChannelsZero()
    ensures MakeType(0, 256) == 2040 && TypeToString(2040) == "8UC0"
  {
    assert NarrowChannels(2040) == 0;
    assert ToDecimal(0) == "0";
  }

  /** ... and `CV_8UC(257)` prints the same as `CV_8UC1`, which the wide
      channel count tells apart. */
  lemma NarrowChannelsCollide()
    ensures MakeType(0, 257) == 2048 && TypeToString(2048) == TypeToString(0)
    ensures TypeToStringWide(2048) != TypeToStringWide(0)
  {
    assert NarrowChannels(2048) == 1 && NarrowChannels(0) == 1;
    assert WideChannels(2048) == 257 && WideChannels(0) == 1;
    assert |ToDecimal(257)| == 3 && |ToDecimal(1)| == 1;
  }
}
