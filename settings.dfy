/**
  The settings of the plugin: one numeric preference, the highlight duration
  in milliseconds, and the `onChange` handler of its text field, which stores
  `parseInt` of the typed text, or the default when that is NaN, and then
  saves the settings.

  `saveSettings` is recorded, not performed: each call counts in `saveCount`
  and leaves the settings it was given in `lastSaved`.
*/
module Settings {
  import opened Wrappers
  import opened NumberParsing

  datatype PluginSettings = PluginSettings(highlightDuration: int)

  /** `DEFAULT_SETTINGS.highlightDuration`. */
  const DefaultHighlightDuration: int := 500

  const DefaultSettings: PluginSettings := PluginSettings(DefaultHighlightDuration)

  /** The value the handler stores for the typed text: parsed, or the default when NaN. */
  function ParseDuration(durationString: string): (r: int)
    ensures ParseInt(durationString).None? ==> r == DefaultHighlightDuration
    ensures ParseInt(durationString).Some? ==> r == ParseInt(durationString).value
  {
    match ParseInt(durationString)
    case None => DefaultHighlightDuration
    case Some(duration) => duration
  }

  /** Text without any decimal digit falls back to 500. */
  lemma ParseDurationWithoutDigits(durationString: string)
    requires forall i :: 0 <= i < |durationString| ==> !IsDecimalDigit(durationString[i])
    ensures ParseDuration(durationString) == 500
  {
    ParseIntWithoutDigits(durationString);
  }

  /**
    Text whose first code point after the white space and the optional sign is
    no decimal digit falls back to 500, even when digits come later.
  */
  lemma ParseDurationOfNoLeadingDigit(w: string, sign: string, rest: string)
    requires AllWhiteSpace(w) && IsSign(sign)
    requires rest == [] || !IsDecimalDigit(rest[0])
    requires sign == "" ==> rest == [] || (!IsStrWhiteSpaceChar(rest[0]) && rest[0] != '+' && rest[0] != '-')
    ensures ParseDuration(w + sign + rest) == 500
  {
    ParseIntNoLeadingDigit(w, sign, rest);
  }

  /** "abc5", "--5" and "+ 5" store 500. */
  lemma ParseDurationExamplesNoLeadingDigit()
    ensures ParseDuration("abc5") == 500
    ensures ParseDuration("--5") == 500
    ensures ParseDuration("+ 5") == 500
  {
    assert "" + "" + "abc5" == "abc5";
    ParseDurationOfNoLeadingDigit("", "", "abc5");
    assert "" + "-" + "-5" == "--5";
    ParseDurationOfNoLeadingDigit("", "-", "-5");
    assert "" + "+" + " 5" == "+ 5";
    ParseDurationOfNoLeadingDigit("", "+", " 5");
  }

  /**
    A numeral followed by anything that cannot continue it stores the number it
    denotes, negative numbers included: no range check is applied.
  */
  lemma ParseDurationOfNumeral(duration: int, rest: string)
    requires -ToStringDecimalLimit < duration < ToStringDecimalLimit
    requires rest == [] || !IsDecimalDigit(rest[0])
    requires duration == 0 ==> rest == [] || (rest[0] != 'x' && rest[0] != 'X')
    ensures ParseDuration(NumberToString(duration) + rest) == duration
  {
    ParseIntOfNumberToString(duration, rest);
  }

  /**
    The field shows `highlightDuration.toString()`; handing that text back to
    the handler stores the same duration.
  */
  lemma ParseDurationOfDisplayed(duration: int)
    requires -ToStringDecimalLimit < duration < ToStringDecimalLimit
    ensures ParseDuration(NumberToString(duration)) == duration
  {
    assert NumberToString(duration) + "" == NumberToString(duration);
    ParseDurationOfNumeral(duration, "");
  }

  /** Text without a number falls back to the default. */
  lemma ParseDurationExamplesDefault()
    ensures ParseDuration("abc") == 500 && ParseDuration("") == 500
  {
    ParseDurationWithoutDigits("abc");
    ParseDurationWithoutDigits("");
  }

  lemma ParseDurationExample1200()
    ensures ParseDuration("1200") == 1200
  {
    assert DecimalString(1200) == "1200" by {
      assert DecimalString(1) == "1";
      assert DecimalString(12) == "12";
      assert DecimalString(120) == "120";
    }
    assert NumberToString(1200) + "" == "1200";
    ParseDurationOfNumeral(1200, "");
  }

  /** parseInt stops at the first non-digit, takes a sign and skips white space. */
  lemma ParseDurationExamplesPrefix()
    ensures ParseDuration("12ab") == 12
    ensures ParseDuration("-5") == -5
  {
    assert NumberToString(12) + "ab" == "12ab" by {
      assert DecimalString(1) == "1";
    }
    ParseDurationOfNumeral(12, "ab");
    assert NumberToString(-5) + "" == "-5";
    ParseDurationOfNumeral(-5, "");
  }

  /**
    White space, a sign and a run of decimal digits with leading zeros store
    the signed value of the digits.
  */
  lemma ParseDurationOfDecimal(w: string, sign: string, digits: string, rest: string)
    requires AllWhiteSpace(w) && IsSign(sign)
    requires digits != [] && AllRadixDigits(digits, 10)
    requires rest == [] || !IsDecimalDigit(rest[0])
    requires !HasHexPrefix(digits + rest)
    ensures ParseDuration(w + sign + digits + rest) ==
      if sign == "-" then -(DigitsValue(digits, 10) as int) else DigitsValue(digits, 10) as int
  {
    ParseIntOfDecimal(w, sign, digits, rest);
  }

  lemma ParseDurationExamplePlus()
    ensures ParseDuration("+5") == 5
  {
    assert DigitsValue("5", 10) == 5;
    assert "" + "+" + "5" + "" == "+5";
    ParseDurationOfDecimal("", "+", "5", "");
  }

  /** Leading zeros are read as decimal: "007" stores 7, "-007" stores -7. */
  lemma ParseDurationExamplesLeadingZeros()
    ensures ParseDuration("007") == 7 && ParseDuration("-007") == -7
  {
    assert DigitsValue("007", 10) == 7 by {
      assert DigitsValue("0", 10) == 0;
      assert DigitsValue("00", 10) == 0;
    }
    assert !HasHexPrefix("007" + "");
    assert "" + "" + "007" + "" == "007";
    ParseDurationOfDecimal("", "", "007", "");
    assert "" + "-" + "007" + "" == "-007";
    ParseDurationOfDecimal("", "-", "007", "");
  }

  lemma ParseDurationExampleWhiteSpace()
    ensures ParseDuration(" 42") == 42
  {
    assert NumberToString(42) + "" == "42" by {
      assert DecimalString(4) == "4";
    }
    ParseDurationOfNumeral(42, "");
    assert " " + "42" == " 42";
    ParseIntSkipsWhiteSpace(" ", "42");
  }

  /** The part of the plugin the settings tab works on. */
  class SettingsHolder {
    var settings: PluginSettings
    var saveCount: nat                   // saveSettings calls so far
    var lastSaved: Option<PluginSettings> // what the latest call persisted

    constructor()
      ensures settings == DefaultSettings && saveCount == 0 && lastSaved == None
    {
      settings := DefaultSettings;
      saveCount := 0;
      lastSaved := None;
    }

    method SaveSettings()
      modifies this`saveCount, this`lastSaved
      ensures saveCount == old(saveCount) + 1 && lastSaved == Some(settings)
    {
      saveCount := saveCount + 1;
      lastSaved := Some(settings);
    }
  }

  class SettingsTab {
    const plugin: SettingsHolder

    constructor(plugin: SettingsHolder)
      ensures this.plugin == plugin
    {
      this.plugin := plugin;
    }

    /**
      The text field's onChange handler: only highlightDuration changes, to the
      parsed value or the default, and the settings are then saved exactly once.
    */
    method OnChange(durationString: string)
      modifies plugin
      ensures plugin.settings == old(plugin.settings).(highlightDuration := ParseDuration(durationString))
      ensures plugin.saveCount == old(plugin.saveCount) + 1
      ensures plugin.lastSaved == Some(plugin.settings)
    {
      var duration := ParseInt(durationString);
      if duration.None? {
        plugin.settings := plugin.settings.(highlightDuration := DefaultHighlightDuration);
        plugin.SaveSettings();
        assert plugin.settings.highlightDuration == ParseDuration(durationString);
        return;
      }
      plugin.settings := plugin.settings.(highlightDuration := duration.value);
      plugin.SaveSettings();
      assert plugin.settings.highlightDuration == ParseDuration(durationString);
    }
  }

  /** Typing "abc" and then "1200": two saves, first of the default, then of 1200. */
  method ScenarioTyping() {
    var holder := new SettingsHolder();
    var tab := new SettingsTab(holder);
    ParseDurationExamplesDefault();
    ParseDurationExample1200();
    tab.OnChange("abc");
    assert holder.settings.highlightDuration == 500;
    tab.OnChange("1200");
    assert holder.saveCount == 2 && holder.lastSaved == Some(PluginSettings(1200));
  }
}
