/** The string primitives the program leans on: `trim` (main.cpp), the
    `std::string` searches it uses, `std::to_string` on non-negative
    integers and `std::stoi`, which parses a leading decimal integer. */
module Text {
  import opened Wrappers

  // ---------------------------------------------------------------- trim

  /** The characters `trim` strips: " \t\r\n". */
  predicate IsTrimSpace(c: char) {
    c == ' ' || c == '\t' || c == '\r' || c == '\n'
  }

  predicate AllTrimSpace(s: string) {
    forall k :: 0 <= k < |s| ==> IsTrimSpace(s[k])
  }

  /** A string that `trim` leaves alone: empty, or no stripped character at
      either end. */
  predicate Trimmed(s: string) {
    s == [] || (!IsTrimSpace(s[0]) && !IsTrimSpace(s[|s| - 1]))
  }

  /** `find_first_not_of(" \t\r\n", from)`; `None` stands for `npos`. */
  function FirstNonSpace(s: string, from: nat): (r: Option<nat>)
    requires from <= |s|
    ensures r.Some? ==> from <= r.value < |s| && !IsTrimSpace(s[r.value])
    ensures r.Some? ==> forall k :: from <= k < r.value ==> IsTrimSpace(s[k])
    ensures r.None? <==> forall k :: from <= k < |s| ==> IsTrimSpace(s[k])
    decreases |s| - from
  {
    if from == |s| then None
    else if !IsTrimSpace(s[from]) then Some(from)
    else FirstNonSpace(s, from + 1)
  }

  /** `find_last_not_of(" \t\r\n")` restricted to `s[..upto]`. */
  function LastNonSpace(s: string, upto: nat): (r: Option<nat>)
    requires upto <= |s|
    ensures r.Some? ==> r.value < upto && !IsTrimSpace(s[r.value])
    ensures r.Some? ==> forall k :: r.value < k < upto ==> IsTrimSpace(s[k])
    ensures r.None? <==> forall k :: 0 <= k < upto ==> IsTrimSpace(s[k])
  {
    if upto == 0 then None
    else if !IsTrimSpace(s[upto - 1]) then Some(upto - 1)
    else LastNonSpace(s, upto - 1)
  }

  /** `r` sits in `s` at offset `b` with only stripped characters around it. */
  predicate PaddedAt(s: string, b: nat, r: string) {
    && b + |r| <= |s|
    && r == s[b..b + |r|]
    && (forall k :: 0 <= k < b ==> IsTrimSpace(s[k]))
    && (forall k :: b + |r| <= k < |s| ==> IsTrimSpace(s[k]))
  }

  /** main.cpp `trim`: the infix that neither starts nor ends with a
      stripped character and has only stripped characters around it. */
  function Trim(s: string): (r: string)
    ensures Trimmed(r)
    ensures r == [] <==> AllTrimSpace(s)
    ensures exists b :: PaddedAt(s, b, r)
  {
    match FirstNonSpace(s, 0)
    case None =>
      assert PaddedAt(s, 0, []);
      []
    case Some(b) =>
      var e := LastNonSpace(s, |s|).value;
      var r := s[b..e + 1];
      assert PaddedAt(s, b, r);
      r
  }

  /** `trim` is a fixed point on strings it would not change. */
  lemma TrimKeepsTrimmed(s: string)
    requires Trimmed(s)
    ensures Trim(s) == s
  {
    if s != [] {
      assert FirstNonSpace(s, 0) == Some(0);
      assert LastNonSpace(s, |s|) == Some(|s| - 1);
      assert s[0..|s|] == s;
    }
  }

  /** `trim` is idempotent. */
  lemma TrimIdempotent(s: string)
    ensures Trim(Trim(s)) == Trim(s)
  {
    TrimKeepsTrimmed(Trim(s));
  }

  /** `trim` removes exactly the stripped padding around a trimmed core. */
  lemma TrimOfPadded(pre: string, core: string, post: string)
    requires AllTrimSpace(pre) && AllTrimSpace(post) && Trimmed(core)
    ensures Trim(pre + core + post) == core
  {
    var s := pre + core + post;
    if core == [] {
      assert s == pre + post;
      assert AllTrimSpace(s);
    } else {
      FirstNonSpaceAt(s, 0, |pre|);
      LastNonSpaceAt(s, |s|, |pre| + |core| - 1);
      assert s[|pre|..|pre| + |core|] == core;
    }
  }

  lemma {:induction false} FirstNonSpaceAt(s: string, from: nat, i: nat)
    requires from <= i < |s| && !IsTrimSpace(s[i])
    requires forall k :: from <= k < i ==> IsTrimSpace(s[k])
    ensures FirstNonSpace(s, from) == Some(i)
    decreases i - from
  {
    if from < i {
      FirstNonSpaceAt(s, from + 1, i);
    }
  }

  lemma {:induction false} LastNonSpaceAt(s: string, upto: nat, i: nat)
    requires i < upto <= |s| && !IsTrimSpace(s[i])
    requires forall k :: i < k < upto ==> IsTrimSpace(s[k])
    ensures LastNonSpace(s, upto) == Some(i)
    decreases upto - i
  {
    if i < upto - 1 {
      LastNonSpaceAt(s, upto - 1, i);
    }
  }

  // ---------------------------------------------------------------- find

  /** `std::string::find(c, from)`; `None` stands for `npos`. */
  function Find(s: string, c: char, from: nat): (r: Option<nat>)
    requires from <= |s|
    ensures r.Some? ==> from <= r.value < |s| && s[r.value] == c
    ensures r.Some? ==> forall k :: from <= k < r.value ==> s[k] != c
    ensures r.None? <==> forall k :: from <= k < |s| ==> s[k] != c
    decreases |s| - from
  {
    if from == |s| then None
    else if s[from] == c then Some(from)
    else Find(s, c, from + 1)
  }

  /** No character of `s` is `c`. */
  predicate Lacks(s: string, c: char) {
    forall k :: 0 <= k < |s| ==> s[k] != c
  }

  /** The search lands on the first occurrence, wherever the string goes on. */
  lemma {:induction false} FindAfterPrefix(a: string, c: char, b: string)
    requires Lacks(a, c)
    ensures Find(a + [c] + b, c, 0) == Some(|a|)
  {
    var s := a + [c] + b;
    FindAt(s, c, 0, |a|);
  }

  lemma {:induction false} FindAt(s: string, c: char, from: nat, i: nat)
    requires from <= i < |s| && s[i] == c
    requires forall k :: from <= k < i ==> s[k] != c
    ensures Find(s, c, from) == Some(i)
    decreases i - from
  {
    if from < i {
      FindAt(s, c, from + 1, i);
    }
  }

  // ------------------------------------------------------ decimal digits

  predicate IsDigit(c: char) { '0' <= c <= '9' }

  predicate AllDigits(s: string) {
    forall k :: 0 <= k < |s| ==> IsDigit(s[k])
  }

  function DigitChar(d: nat): (c: char)
    requires d < 10
    ensures IsDigit(c)
  {
    (48 + d) as char
  }

  function DigitOf(c: char): (d: nat)
    requires IsDigit(c)
    ensures d < 10 && DigitChar(d) == c
  {
    c as int - 48
  }

  /** `std::to_string` on a non-negative integer: decimal digits without
      leading zeros. */
  function ToDecimal(n: nat): (s: string)
    ensures 1 <= |s| && AllDigits(s)
    ensures s[0] == '0' ==> n == 0 && s == "0"
    decreases n
  {
    if n < 10 then [DigitChar(n)] else ToDecimal(n / 10) + [DigitChar(n % 10)]
  }

  /** The value of a run of decimal digits, most significant first. */
  function DigitsValue(s: string): nat
    requires AllDigits(s)
  {
    if s == [] then 0 else DigitsValue(s[..|s| - 1]) * 10 + DigitOf(s[|s| - 1])
  }

  /** Reading back what `ToDecimal` printed gives the number again. */
  lemma {:induction false} DigitsValueOfDecimal(n: nat)
    ensures DigitsValue(ToDecimal(n)) == n
    decreases n
  {
    var s := ToDecimal(n);
    if n >= 10 {
      assert s[..|s| - 1] == ToDecimal(n / 10);
      DigitsValueOfDecimal(n / 10);
    }
  }

  /** Distinct numbers print differently. */
  lemma ToDecimalInjective(m: nat, n: nat)
    requires ToDecimal(m) == ToDecimal(n)
    ensures m == n
  {
    DigitsValueOfDecimal(m);
    DigitsValueOfDecimal(n);
  }

  // ---------------------------------------------------------------- stoi

  const IntMin: int := -0x8000_0000
  const IntMax: int := 0x7FFF_FFFF

  /** The C `isspace` set that `strtol` skips before the number. */
  predicate IsCSpace(c: char) {
    c == ' ' || c == '\t' || c == '\n' || c == '\r' || c as int == 11 || c as int == 12
  }

  function SkipCSpace(s: string, i: nat): (j: nat)
    requires i <= |s|
    ensures i <= j <= |s|
    ensures forall k :: i <= k < j ==> IsCSpace(s[k])
    ensures j < |s| ==> !IsCSpace(s[j])
    decreases |s| - i
  {
    if i < |s| && IsCSpace(s[i]) then SkipCSpace(s, i + 1) else i
  }

  /** End of the maximal run of digits starting at `i`. */
  function DigitsEnd(s: string, i: nat): (j: nat)
    requires i <= |s|
    ensures i <= j <= |s|
    ensures AllDigits(s[i..j])
    ensures j < |s| ==> !IsDigit(s[j])
    decreases |s| - i
  {
    if i < |s| && IsDigit(s[i]) then DigitsEnd(s, i + 1) else i
  }

  /** `std::stoi(s)`: skips leading white space, accepts one optional sign
      and then the longest run of decimal digits, ignoring whatever follows.
      It throws (here: `None`) when there is no digit or when the value does
      not fit a 32-bit `int`. */
  function ParseInt(s: string): (r: Option<int>)
    ensures r.Some? ==> IntMin <= r.value <= IntMax
  {
    ParseIntAt(s, SkipCSpace(s, 0))
  }

  /** The part of `stoi` after the white space: sign, digits, range check. */
  function ParseIntAt(s: string, i: nat): (r: Option<int>)
    requires i <= |s|
    ensures r.Some? ==> IntMin <= r.value <= IntMax
  {
    var signed := i < |s| && (s[i] == '-' || s[i] == '+');
    var negative := i < |s| && s[i] == '-';
    match Magnitude(s, if signed then i + 1 else i)
    case None => None
    case Some(magnitude) =>
      var v := if negative then 0 - magnitude else magnitude;
      if v < IntMin || v > IntMax then None else Some(v)
  }

  /** The value of the digit run starting at `j`; `None` when it is empty. */
  function Magnitude(s: string, j: nat): Option<nat>
    requires j <= |s|
  {
    var k := DigitsEnd(s, j);
    if k == j then None else Some(DigitsValue(s[j..k]))
  }

  /** `stoi` reads back what `to_string` printed, whatever non-digit text
      follows it. */
  lemma ParseIntOfDecimal(n: nat, tail: string)
    requires n <= IntMax
    requires tail == [] || !IsDigit(tail[0])
    ensures ParseInt(ToDecimal(n) + tail) == Some(n)
  {
    var d := ToDecimal(n);
    var s := d + tail;
    assert !IsCSpace(s[0]) && s[0] != '-' && s[0] != '+';
    assert SkipCSpace(s, 0) == 0;
    DigitsEndAt(s, 0, |d|);
    assert s[0..|d|] == d;
    DigitsValueOfDecimal(n);
  }

  /** `stoi` of a minus sign and digits gives the negated value. */
  lemma ParseIntOfNegative(n: nat)
    requires n <= -IntMin
    ensures ParseInt("-" + ToDecimal(n)) == Some(0 - n)
  {
    var d := ToDecimal(n);
    var s := "-" + d;
    assert SkipCSpace(s, 0) == 0;
    DigitsEndAt(s, 1, |s|);
    assert s[1..|s|] == d;
    DigitsValueOfDecimal(n);
  }

  /** `stoi` throws `invalid_argument` when no digit follows the white
      space and the optional sign. */
  lemma ParseIntNeedsDigits(s: string)
    requires var i := SkipCSpace(s, 0);
             var j := if i < |s| && (s[i] == '-' || s[i] == '+') then i + 1 else i;
             j == |s| || !IsDigit(s[j])
    ensures ParseInt(s) == None
  {
    var i := SkipCSpace(s, 0);
    var j := if i < |s| && (s[i] == '-' || s[i] == '+') then i + 1 else i;
    DigitsEndAt(s, j, j);
  }

  /** `stoi` throws `out_of_range` on a decimal above `INT_MAX` ... */
  lemma ParseIntOverflow(n: nat, tail: string)
    requires n > IntMax
    requires tail == [] || !IsDigit(tail[0])
    ensures ParseInt(ToDecimal(n) + tail) == None
  {
    var d := ToDecimal(n);
    var s := d + tail;
    assert !IsCSpace(s[0]) && s[0] != '-' && s[0] != '+';
    assert SkipCSpace(s, 0) == 0;
    DigitsEndAt(s, 0, |d|);
    assert s[0..|d|] == d;
    DigitsValueOfDecimal(n);
  }

  /** ... and on a negated decimal below `INT_MIN`. */
  lemma ParseIntUnderflow(n: nat, tail: string)
    requires n > -IntMin
    requires tail == [] || !IsDigit(tail[0])
    ensures ParseInt("-" + ToDecimal(n) + tail) == None
  {
    var d := ToDecimal(n);
    var s := "-" + d + tail;
    assert SkipCSpace(s, 0) == 0;
    DigitsEndAt(s, 1, 1 + |d|);
    assert s[1..1 + |d|] == d;
    DigitsValueOfDecimal(n);
  }

  /** Leading white space does not change what `stoi` reads. */
  lemma ParseIntSkipsSpace(ws: string, s: string)
    requires forall k :: 0 <= k < |ws| ==> IsCSpace(ws[k])
    ensures ParseInt(ws + s) == ParseInt(s)
  {
    SkipCSpaceShift(ws, s, 0);
    ParseIntAtShift(ws, s, SkipCSpace(s, 0));
  }

  lemma ParseIntAtShift(ws: string, s: string, i: nat)
    requires i <= |s|
    ensures ParseIntAt(ws + s, |ws| + i) == ParseIntAt(s, i)
  {
    var t := ws + s;
    if i < |s| {
      assert t[|ws| + i] == s[i];
    }
    var j := if i < |s| && (s[i] == '-' || s[i] == '+') then i + 1 else i;
    MagnitudeShift(ws, s, j);
  }

  lemma MagnitudeShift(ws: string, s: string, j: nat)
    requires j <= |s|
    ensures Magnitude(ws + s, |ws| + j) == Magnitude(s, j)
  {
    var t := ws + s;
    DigitsEndShift(ws, s, j);
    var k := DigitsEnd(s, j);
    assert t[|ws| + j..|ws| + k] == s[j..k];
  }

  lemma {:induction false} SkipCSpaceShift(ws: string, s: string, i: nat)
    requires forall k :: 0 <= k < |ws| ==> IsCSpace(ws[k])
    requires i <= |ws|
    ensures SkipCSpace(ws + s, i) == |ws| + SkipCSpace(s, 0)
    decreases |ws| + |s| - i
  {
    var t := ws + s;
    if i < |ws| {
      assert t[i] == ws[i];
      SkipCSpaceShift(ws, s, i + 1);
    } else {
      SkipCSpaceOffset(ws, s, 0);
    }
  }

  lemma {:induction false} SkipCSpaceOffset(ws: string, s: string, i: nat)
    requires i <= |s|
    ensures SkipCSpace(ws + s, |ws| + i) == |ws| + SkipCSpace(s, i)
    decreases |s| - i
  {
    var t := ws + s;
    if i < |s| {
      assert t[|ws| + i] == s[i];
      if IsCSpace(s[i]) {
        SkipCSpaceOffset(ws, s, i + 1);
      }
    }
  }

  lemma {:induction false} DigitsEndShift(ws: string, s: string, i: nat)
    requires i <= |s|
    ensures DigitsEnd(ws + s, |ws| + i) == |ws| + DigitsEnd(s, i)
    decreases |s| - i
  {
    var t := ws + s;
    if i < |s| {
      assert t[|ws| + i] == s[i];
      if IsDigit(s[i]) {
        DigitsEndShift(ws, s, i + 1);
      }
    }
  }

  lemma {:induction false} DigitsEndAt(s: string, i: nat, j: nat)
    requires i <= j <= |s|
    requires forall k :: i <= k < j ==> IsDigit(s[k])
    requires j < |s| ==> !IsDigit(s[j])
    ensures DigitsEnd(s, i) == j
    decreases j - i
  {
    if i < j {
      DigitsEndAt(s, i + 1, j);
    }
  }
}
