/**
 * The decision logic of the add-on's entry script: the ROM directory chosen from the settings, the
 * settings update done at start-up, the action router, and the checks applied to the year and
 * rating of a game before they are shown.
 */
module Plugin {
  import opened Wrappers
  import opened Digits

  const BATOCERA_ROMS: string := "/userdata/roms"
  const RETROPIE_ROMS: string := "/home/pi/RetroPie/roms"

  /** The add-on's settings store. */
  class Addon {
    var settings: map<string, string>

    constructor (initial: map<string, string>)
      ensures settings == initial
    {
      settings := initial;
    }

    /** `ADDON.getSetting(id)`: the stored value, or the empty string for a setting never written. */
    function GetSetting(id: string): string
      reads this
    {
      if id in settings then settings[id] else ""
    }

    /** `ADDON.setSetting(id, value)`. */
    method SetSetting(id: string, value: string)
      modifies this
      ensures settings == old(settings)[id := value]
      ensures GetSetting(id) == value
    {
      settings := settings[id := value];
    }
  }

  /**
   * `get_rom_directory`. `browsed` is the folder the `Dialog().browse` prompt returns when it is shown
   * (type `"2"` with no custom directory stored yet); the choice is then stored.
   */
  method GetRomDirectory(addon: Addon, browsed: string) returns (dir: Option<string>)
    modifies addon
    ensures old(addon.GetSetting("data_directory_type")) == "0" ==> dir == Some(BATOCERA_ROMS) && addon.settings == old(addon.settings)
    ensures old(addon.GetSetting("data_directory_type")) == "1" ==> dir == Some(RETROPIE_ROMS) && addon.settings == old(addon.settings)
    ensures old(addon.GetSetting("data_directory_type")) == "2" && old(addon.GetSetting("custom_rom_directory")) != "" ==>
              dir == Some(old(addon.GetSetting("custom_rom_directory"))) && addon.settings == old(addon.settings)
    ensures old(addon.GetSetting("data_directory_type")) == "2" && old(addon.GetSetting("custom_rom_directory")) == "" ==>
              dir == Some(browsed) && addon.settings == old(addon.settings)["custom_rom_directory" := browsed]
    ensures old(addon.GetSetting("data_directory_type")) !in {"0", "1", "2"} ==> dir == None && addon.settings == old(addon.settings)
  {
    var dataDirectoryType := addon.GetSetting("data_directory_type");
    if dataDirectoryType == "0" {
      return Some(BATOCERA_ROMS);
    } else if dataDirectoryType == "1" {
      return Some(RETROPIE_ROMS);
    } else if dataDirectoryType == "2" {
      var customPath := addon.GetSetting("custom_rom_directory");
      if customPath == "" {
        customPath := browsed;
        addon.SetSetting("custom_rom_directory", customPath);
      }
      return Some(customPath);
    }
    return None;
  }

  /** `update_rom_directory`: for the two fixed layouts, records their ROM directory as the custom one. */
  method UpdateRomDirectory(addon: Addon)
    modifies addon
    ensures old(addon.GetSetting("data_directory_type")) == "0" ==> addon.settings == old(addon.settings)["custom_rom_directory" := BATOCERA_ROMS]
    ensures old(addon.GetSetting("data_directory_type")) == "1" ==> addon.settings == old(addon.settings)["custom_rom_directory" := RETROPIE_ROMS]
    ensures old(addon.GetSetting("data_directory_type")) !in {"0", "1"} ==> addon.settings == old(addon.settings)
  {
    var dataDirectoryType := addon.GetSetting("data_directory_type");
    if dataDirectoryType == "0" {
      addon.SetSetting("custom_rom_directory", BATOCERA_ROMS);
    } else if dataDirectoryType == "1" {
      addon.SetSetting("custom_rom_directory", RETROPIE_ROMS);
    }
  }

  // ----- router -----

  /** What the router does: list games for a search type, launch a ROM, or show the main menu. */
  datatype Action = DisplayGames(searchType: string) | LaunchGame(romPath: string) | MainMenu

  /** The query parameters as `parse_qs` returns them: every key maps to a non-empty list of values. */
  predicate WellFormedParams(params: map<string, seq<string>>) {
    forall k :: k in params ==> |params[k]| > 0
  }

  /** `params.get("action", [None])[0]`. */
  function ActionParam(params: map<string, seq<string>>): Option<string>
    requires WellFormedParams(params)
  {
    if "action" in params then Some(params["action"][0]) else None
  }

  /** `router`: dispatches on the first `action` value. */
  function Router(params: map<string, seq<string>>): (a: Action)
    requires WellFormedParams(params)
    ensures a == DisplayGames("0") <==> ActionParam(params) == Some("favorites")
    ensures a == DisplayGames("1") <==> ActionParam(params) == Some("latest")
    ensures a.DisplayGames? ==> a.searchType in {"0", "1"}
    ensures a.LaunchGame? <==> ActionParam(params) == Some("run") && "rom_path" in params
    ensures a.LaunchGame? ==> a.romPath == params["rom_path"][0]
    ensures a == MainMenu <==>
              ActionParam(params) !in {Some("favorites"), Some("latest"), Some("run")}
              || (ActionParam(params) == Some("run") && "rom_path" !in params)
  {
    var action := ActionParam(params);
    if action == Some("favorites") then DisplayGames("0")
    else if action == Some("latest") then DisplayGames("1")
    else if action == Some("run") && "rom_path" in params then LaunchGame(params["rom_path"][0])
    else MainMenu
  }

  // ----- year and rating checks of display_games -----

  /** `int(s) if s.isdigit() else 0`, with ASCII digits: the year shown for a game. */
  function YearValue(s: string): (v: nat)
    ensures s == "" ==> v == 0
    ensures !AllDigits(s) ==> v == 0
    ensures v > 0 ==> |s| > 0 && AllDigits(s)
  {
    if |s| > 0 && AllDigits(s) then ValueOf(s) else 0
  }

  /** A year written out by `str` reads back as itself. */
  lemma YearRoundTrip(n: nat)
    ensures YearValue(Decimal(n)) == n
  {
    ValueOfDecimal(n);
  }

  /** A year written with leading zeros reads back as itself too, as `int` ignores them. */
  lemma YearPaddedRoundTrip(n: nat, width: nat)
    requires 0 < width && n < Pow10(width)
    ensures YearValue(Padded(n, width)) == n
  {
    ValueOfPadded(n, width);
  }

  /** `s.replace('.', '', 1)`: `s` without its first `.`. */
  function RemoveFirstDot(s: string): (r: string)
    ensures '.' !in s ==> r == s
    ensures '.' in s ==> |r| == |s| - 1
  {
    if s == [] then []
    else if s[0] == '.' then s[1..]
    else [s[0]] + RemoveFirstDot(s[1..])
  }

  /** The rating check: `s.replace('.', '', 1).isdigit()`. A rejected rating is shown as 0.0. */
  predicate RatingAccepted(s: string) {
    var t := RemoveFirstDot(s);
    |t| > 0 && AllDigits(t)
  }

  lemma {:induction false} RemoveFirstDotAt(s: string, k: nat)
    requires k < |s| && s[k] == '.' && '.' !in s[..k]
    ensures RemoveFirstDot(s) == s[..k] + s[k + 1..]
  {
    if k > 0 {
      assert s[0] == s[..k][0];
      assert s[1..][..k - 1] == s[..k][1..];
      RemoveFirstDotAt(s[1..], k - 1);
      assert s[..k] == [s[0]] + s[1..][..k - 1];
      assert s[k + 1..] == s[1..][k..];
    }
  }

  /** Only one `.` can have digits on both sides of it. */
  lemma OnlyDotBetweenDigits(s: string, j: nat, k: nat)
    requires j < |s| && k < |s| && s[j] == '.' && s[k] == '.'
    requires AllDigits(s[..j]) && AllDigits(s[j + 1..])
    ensures j == k
  {
  }

  /** The position of the first `.` in `s`. */
  function FirstDot(s: string): (k: nat)
    requires '.' in s
    ensures k < |s| && s[k] == '.' && '.' !in s[..k]
  {
    if s[0] == '.' then 0
    else
      var k := FirstDot(s[1..]) + 1;
      assert s[..k] == [s[0]] + s[1..][..k - 1];
      k
  }

  /**
   * A rating is accepted iff it is a non-empty run of digits, or two runs of digits around a single `.`
   * with at least one digit in all: `"1.5"`, `".5"` and `"5."` pass, `"."`, `"1.2.3"` and `"-1"` do not.
   */
  lemma RatingAcceptedExactly(s: string)
    ensures RatingAccepted(s) <==>
      (|s| > 0 && AllDigits(s)) ||
      (exists k :: 0 <= k < |s| && s[k] == '.' && |s| >= 2 && AllDigits(s[..k]) && AllDigits(s[k + 1..]))
  {
    if '.' in s {
      var k := FirstDot(s);
      RemoveFirstDotAt(s, k);
      AllDigitsAppend(s[..k], s[k + 1..]);
      assert !AllDigits(s) by { assert !IsDigit(s[k]); }
      if exists j :: 0 <= j < |s| && s[j] == '.' && |s| >= 2 && AllDigits(s[..j]) && AllDigits(s[j + 1..]) {
        var j :| 0 <= j < |s| && s[j] == '.' && |s| >= 2 && AllDigits(s[..j]) && AllDigits(s[j + 1..]);
        OnlyDotBetweenDigits(s, j, k);
      }
    } else {
      forall k | 0 <= k < |s| ensures s[k] != '.' { }
    }
  }

  /** The ratings named above, checked against the definition. */
  lemma RatingExamples()
    ensures RatingAccepted("1.5") && RatingAccepted(".5") && RatingAccepted("5.")
    ensures !RatingAccepted(".") && !RatingAccepted("1.2.3") && !RatingAccepted("-1")
  {
    assert RemoveFirstDot("1.5") == "15";
    assert RemoveFirstDot("1.2.3") == "12.3";
    assert !IsDigit("12.3"[2]);
    assert !IsDigit("-1"[0]);
  }
}
