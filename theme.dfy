/** The theme-colour switcher: five colour buttons, of which a click leaves
    exactly the clicked one active and saves its hue; on set-up a saved hue
    activates exactly the buttons whose hue text equals it. */
module Theme {

  datatype Option<T> = None | Some(value: T)

  datatype ThemeColor = ThemeColor(hue: nat, name: string)

  const ThemeColors: seq<ThemeColor> := [
    ThemeColor(270, "Purple"),
    ThemeColor(200, "Blue"),
    ThemeColor(340, "Red"),
    ThemeColor(160, "Green"),
    ThemeColor(40, "Orange")
  ]

  function DigitChar(d: nat): char
    requires d < 10
  {
    ('0' as int + d) as char
  }

  function DigitValue(c: char): nat
  {
    if '0' <= c <= '9' then c as int - '0' as int else 0
  }

  /** The decimal text of a number, as JavaScript writes a non-negative
      integer when it is stored in `dataset.hue`: no sign, no leading zero. */
  function DecimalString(n: nat): (s: string)
    ensures |s| >= 1
    ensures forall i :: 0 <= i < |s| ==> '0' <= s[i] <= '9'
  {
    if n < 10 then [DigitChar(n)] else DecimalString(n / 10) + [DigitChar(n % 10)]
  }

  /** The number a string of decimal digits denotes. */
  function DecimalValue(s: string): nat
  {
    if |s| == 0 then 0 else DecimalValue(s[..|s| - 1]) * 10 + DigitValue(s[|s| - 1])
  }

  lemma {:induction false} DecimalRoundTrip(n: nat)
    ensures DecimalValue(DecimalString(n)) == n
  {
    if n >= 10 {
      DecimalRoundTrip(n / 10);
      var s := DecimalString(n);
      assert s[..|s| - 1] == DecimalString(n / 10);
    }
  }

  /** Different hues never share a `data-hue` text. */
  lemma DecimalStringInjective(m: nat, n: nat)
    ensures DecimalString(m) == DecimalString(n) <==> m == n
  {
    DecimalRoundTrip(m);
    DecimalRoundTrip(n);
  }

  /** `colorBtn.dataset.hue` of button `i`. */
  function DataHue(i: nat): string
    requires i < |ThemeColors|
  {
    DecimalString(ThemeColors[i].hue)
  }

  /** The active flags when only button `i` of `n` is active. */
  function OnlyActive(n: nat, i: nat): (flags: seq<bool>)
  {
    seq(n, j => j == i)
  }

  /** `btn.classList.toggle('active', btn.dataset.hue === savedHue)` for every button. */
  function MatchingHue(saved: string): (flags: seq<bool>)
  {
    seq(|ThemeColors|, j requires 0 <= j < |ThemeColors| => DataHue(j) == saved)
  }

  /** The active flags after set-up: button 0 is created active; a stored hue that
      is not the empty string (`if (savedHue)`) then overrides every flag. */
  function StartupFlags(saved: Option<string>): seq<bool>
  {
    if saved.Some? && saved.value != "" then MatchingHue(saved.value)
    else OnlyActive(|ThemeColors|, 0)
  }

  /** A reload restores the choice of the last click: the hue the click stored
      activates that button and no other. */
  lemma ReloadRestoresClick(i: nat)
    requires i < |ThemeColors|
    ensures StartupFlags(Some(DataHue(i))) == OnlyActive(|ThemeColors|, i)
  {
    var flags := StartupFlags(Some(DataHue(i)));
    forall j | 0 <= j < |ThemeColors|
      ensures flags[j] == (j == i)
    {
      DecimalStringInjective(ThemeColors[j].hue, ThemeColors[i].hue);
    }
  }

  /** A stored value that is no button's hue text leaves no button active. */
  lemma ForeignHueActivatesNothing(saved: string)
    requires saved != ""
    requires forall j :: 0 <= j < |ThemeColors| ==> DataHue(j) != saved
    ensures forall j :: 0 <= j < |ThemeColors| ==> !StartupFlags(Some(saved))[j]
  {
  }

  /** The colour buttons (their `active` classes) and the `theme-hue` entry of
      local storage. */
  class ColorButtons {
    const active: array<bool>
    var savedHue: Option<string>

    ghost predicate Valid()
      reads this
    {
      active.Length == |ThemeColors|
    }

    /** Set-up: create the buttons, then apply the stored hue, if any. */
    constructor (stored: Option<string>)
      ensures Valid() && fresh(active)
      ensures active[..] == StartupFlags(stored)
      ensures savedHue == stored
    {
      savedHue := stored;
      var flags := new bool[|ThemeColors|];
      for j := 0 to flags.Length
        invariant forall k :: 0 <= k < j ==> flags[k] == (k == 0)
      {
        flags[j] := j == 0;
      }
      if stored.Some? && stored.value != "" {
        for j := 0 to flags.Length
          invariant forall k :: 0 <= k < j ==> flags[k] == (DataHue(k) == stored.value)
        {
          flags[j] := DataHue(j) == stored.value;
        }
      }
      active := flags;
    }

    /** The click listener of button `i`: clear every `active`, set the clicked
        one, store its hue. */
    method Click(i: nat)
      requires Valid() && i < active.Length
      modifies this, active
      ensures Valid()
      ensures active[..] == OnlyActive(active.Length, i)
      ensures savedHue == Some(DataHue(i))
    {
      for j := 0 to active.Length
        invariant forall k :: 0 <= k < j ==> !active[k]
      {
        active[j] := false;
      }
      active[i] := true;
      savedHue := Some(DataHue(i));
    }
  }
}
