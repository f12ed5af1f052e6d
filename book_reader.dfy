/** The in-app text reader component
    (client/src/components/book/BookReader.jsx): the font-size stepper, the
    reading-progress bar, the Previous/Next enabling, the page box and the
    font-family choice. The page itself belongs to the parent, so the page
    controls are functions giving the page the component asks for. */
module BookReader {
  import opened Wrappers
  import opened Text
  import Formatters

  const InitialFontSize: int := 16
  const MinFontSize: int := 12
  const MaxFontSize: int := 24
  const FontStep: int := 2

  /** `Math.max(12, fontSize - 2)`. */
  function Smaller(fs: int): (r: int)
    ensures r >= MinFontSize
    ensures fs - FontStep >= MinFontSize ==> r == fs - FontStep
    ensures fs - FontStep < MinFontSize ==> r == MinFontSize
  {
    if fs - FontStep < MinFontSize then MinFontSize else fs - FontStep
  }

  /** `Math.min(24, fontSize + 2)`. */
  function Larger(fs: int): (r: int)
    ensures r <= MaxFontSize
    ensures fs + FontStep <= MaxFontSize ==> r == fs + FontStep
    ensures fs + FontStep > MaxFontSize ==> r == MaxFontSize
  {
    if fs + FontStep > MaxFontSize then MaxFontSize else fs + FontStep
  }

  /** The sizes the stepper can reach from 16: even, from 12 to 24. */
  predicate ReachableSize(fs: int) {
    MinFontSize <= fs <= MaxFontSize && fs % 2 == 0
  }

  lemma SteppingKeepsSizeReachable(fs: int)
    requires ReachableSize(fs)
    ensures ReachableSize(Smaller(fs)) && ReachableSize(Larger(fs))
  {
  }

  /** Any sequence of steps from a reachable size stays reachable; `true` is
      a press of A+, `false` of A-. */
  function StepAll(fs: int, presses: seq<bool>): int
    decreases |presses|
  {
    if presses == [] then fs
    else StepAll(if presses[0] then Larger(fs) else Smaller(fs), presses[1..])
  }

  lemma {:induction false} StepAllReachable(fs: int, presses: seq<bool>)
    requires ReachableSize(fs)
    ensures ReachableSize(StepAll(fs, presses))
    decreases |presses|
  {
    if presses != [] {
      SteppingKeepsSizeReachable(fs);
      StepAllReachable(if presses[0] then Larger(fs) else Smaller(fs), presses[1..]);
    }
  }

  /** Four presses of A+ from the start reach the largest size, and the
      sizes at either end do not move past it. */
  lemma LargestAfterFourPresses()
    ensures StepAll(InitialFontSize, [true, true, true, true]) == MaxFontSize
    ensures Larger(MaxFontSize) == MaxFontSize && Smaller(MinFontSize) == MinFontSize
  {
    assert [true, true, true, true][1..] == [true, true, true];
    assert [true, true, true][1..] == [true, true];
    assert [true, true][1..] == [true];
    assert [true][1..] == [];
    assert StepAll(22, [true]) == StepAll(24, []) == 24;
    assert StepAll(20, [true, true]) == StepAll(22, [true]);
    assert StepAll(18, [true, true, true]) == StepAll(20, [true, true]);
    assert StepAll(16, [true, true, true, true]) == StepAll(18, [true, true, true]);
  }

  /** From any reachable size, `(24 - fs) / 2` presses of A+ reach the
      largest size. */
  lemma {:induction false} PressesReachLargest(fs: int)
    requires ReachableSize(fs)
    ensures StepAll(fs, seq((MaxFontSize - fs) / 2, _ => true)) == MaxFontSize
    decreases MaxFontSize - fs
  {
    var presses := seq((MaxFontSize - fs) / 2, _ => true);
    if fs < MaxFontSize {
      assert presses[0] && presses[1..] == seq((MaxFontSize - (fs + FontStep)) / 2, _ => true);
      PressesReachLargest(fs + FontStep);
    }
  }

  /** From any reachable size, `(fs - 12) / 2` presses of A- reach the
      smallest size. */
  lemma {:induction false} PressesReachSmallest(fs: int)
    requires ReachableSize(fs)
    ensures StepAll(fs, seq((fs - MinFontSize) / 2, _ => false)) == MinFontSize
    decreases fs - MinFontSize
  {
    var presses := seq((fs - MinFontSize) / 2, _ => false);
    if fs > MinFontSize {
      assert !presses[0] && presses[1..] == seq((fs - FontStep - MinFontSize) / 2, _ => false);
      PressesReachSmallest(fs - FontStep);
    }
  }

  /** The progress bar's width, `Math.round(currentPage / pages * 100)`; a
      book of 0 pages gives no finite number (`None`). */
  function ProgressPercent(currentPage: int, pages: nat): (r: Option<int>)
    ensures r.None? <==> pages == 0
    ensures pages > 0 && 0 <= currentPage <= pages ==> 0 <= r.value <= 100
    ensures pages > 0 && currentPage == pages ==> r.value == 100
    ensures pages > 0 ==> r.value == Formatters.Percentage(currentPage as real, pages as real)
    ensures pages > 0 ==>
      r.value as real - 0.5 <= currentPage as real / pages as real * 100.0 < r.value as real + 0.5
  {
    if pages == 0 then None
    else
      var p := Formatters.Percentage(currentPage as real, pages as real);
      assert currentPage == pages ==> currentPage as real / pages as real == 1.0 by {
        if currentPage == pages {
          Formatters.SelfQuotient(pages as real);
        }
      }
      Some(p)
  }

  /** Previous is disabled exactly on page 1, Next exactly on the last page. */
  predicate PrevDisabled(currentPage: int) { currentPage == 1 }
  predicate NextDisabled(currentPage: int, pages: nat) { currentPage == pages }

  /** `parseInt`, decimal digits only (no radix is passed; a `0x` prefix is
      not read): leading white space, an optional sign, then the longest run
      of decimal digits; `None` (NaN) when there are no digits. */
  function ParseInt(s: string): (r: Option<int>)
  {
    var i := SkipSpaces(s, 0);
    var negative := i < |s| && s[i] == '-';
    var start := if i < |s| && (s[i] == '-' || s[i] == '+') then i + 1 else i;
    var end := DigitRunEnd(s, start);
    if end == start then None
    else
      var v: int := DigitsValue(s[start..end]);
      Some(if negative then -v else v)
  }

  predicate IsDigit(c: char) { '0' <= c <= '9' }

  /** The first index at or after `i` that is not a decimal digit. */
  function DigitRunEnd(s: string, i: nat): (j: nat)
    requires i <= |s|
    ensures i <= j <= |s|
    ensures forall k :: i <= k < j ==> IsDigit(s[k])
    ensures j == |s| || !IsDigit(s[j])
    decreases |s| - i
  {
    if i < |s| && IsDigit(s[i]) then DigitRunEnd(s, i + 1) else i
  }

  /** The number a run of decimal digits denotes. */
  function DigitsValue(ds: string): nat
    requires forall k :: 0 <= k < |ds| ==> IsDigit(ds[k])
  {
    if ds == [] then 0
    else
      assert IsDigit(ds[|ds| - 1]);
      DigitsValue(ds[..|ds| - 1]) * 10 + (ds[|ds| - 1] as int - '0' as int)
  }

  /** Reading back the decimal rendering of a number gives the number. */
  lemma {:induction false} DigitsValueOfNatToString(n: nat)
    ensures DigitsValue(NatToString(n)) == n
  {
    var r := NatToString(n);
    if n >= 10 {
      DigitsValueOfNatToString(n / 10);
      assert r[..|r| - 1] == NatToString(n / 10);
    }
  }

  lemma ParseIntOfNatToString(n: nat)
    ensures ParseInt(NatToString(n)) == Some(n)
  {
    var s := NatToString(n);
    assert !IsSpace(s[0]);
    assert SkipSpaces(s, 0) == 0;
    assert DigitRunEnd(s, 0) == |s| by {
      DigitRunToEnd(s, 0);
    }
    assert s[0..|s|] == s;
    DigitsValueOfNatToString(n);
  }

  lemma {:induction false} DigitRunToEnd(s: string, i: nat)
    requires i <= |s| && forall k :: 0 <= k < |s| ==> IsDigit(s[k])
    ensures DigitRunEnd(s, i) == |s|
    decreases |s| - i
  {
    if i < |s| {
      DigitRunToEnd(s, i + 1);
    }
  }

  /** The page box asks for `parseInt(value) || 1`: the parsed number, or 1
      when it is NaN or 0. */
  function TypedPage(value: string): (page: int)
    ensures page != 0
    ensures ParseInt(value).None? || ParseInt(value) == Some(0) ==> page == 1
    ensures ParseInt(value).Some? && ParseInt(value).value != 0 ==> page == ParseInt(value).value
  {
    match ParseInt(value)
    case None => 1
    case Some(n) => if n == 0 then 1 else n
  }

  /** Typing the digits of a page number asks for that page. */
  lemma TypedDigitsGivePage(n: nat)
    requires n >= 1
    ensures TypedPage(NatToString(n)) == n
  {
    ParseIntOfNatToString(n);
  }

  /** The CSS font stack for the chosen family. */
  function FontStack(family: string): (stack: string)
    ensures family == "serif" ==> stack == "Georgia, serif"
    ensures family == "sans-serif" ==> stack == "-apple-system, sans-serif"
    ensures family != "serif" && family != "sans-serif" ==> stack == "monospace"
  {
    if family == "serif" then "Georgia, serif"
    else if family == "sans-serif" then "-apple-system, sans-serif"
    else "monospace"
  }

  class Reader {
    var fontSize: int
    var fontFamily: string
    var theme: string
    var showSettings: bool

    predicate Valid()
      reads this
    {
      ReachableSize(fontSize)
    }

    constructor ()
      ensures Valid()
      ensures fontSize == InitialFontSize && fontFamily == "serif" && theme == "light" && !showSettings
    {
      fontSize := InitialFontSize;
      fontFamily := "serif";
      theme := "light";
      showSettings := false;
    }

    method DecreaseFont()
      requires Valid()
      modifies this
      ensures Valid() && fontSize == Smaller(old(fontSize))
      ensures fontFamily == old(fontFamily) && theme == old(theme) && showSettings == old(showSettings)
    {
      fontSize := Smaller(fontSize);
    }

    method IncreaseFont()
      requires Valid()
      modifies this
      ensures Valid() && fontSize == Larger(old(fontSize))
      ensures fontFamily == old(fontFamily) && theme == old(theme) && showSettings == old(showSettings)
    {
      fontSize := Larger(fontSize);
    }

    method ChooseFamily(family: string)
      requires Valid()
      modifies this
      ensures Valid() && fontFamily == family
      ensures fontSize == old(fontSize) && theme == old(theme) && showSettings == old(showSettings)
    {
      fontFamily := family;
    }

    method ToggleSettings()
      requires Valid()
      modifies this
      ensures Valid() && showSettings == !old(showSettings)
      ensures fontSize == old(fontSize) && fontFamily == old(fontFamily) && theme == old(theme)
    {
      showSettings := !showSettings;
    }
  }
}
