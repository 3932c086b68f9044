/** `Settings`: the on/off switches the rest of the program consults. The
    stored values come from a JSON file and are kept as cells; the file
    itself is not modelled, only what was read from it. */
module SettingsStore {
  import opened Values

  /** The four settings `set_setting` accepts. */
  const Definitions: set<string> := {"autoprint_table", "hide_instructions", "auto_update", "infer_data_types"}

  /** The factory settings: everything off except type inference. */
  function Defaults(): (d: map<string, Cell>)
    ensures d.Keys == Definitions
    ensures forall k :: k in d ==> d[k].B?
  {
    map["autoprint_table" := B(false), "hide_instructions" := B(false),
        "auto_update" := B(false), "infer_data_types" := B(true)]
  }

  /** `get_setting` on a settings dictionary: "on" when the stored value is
      truthy, "off" otherwise, a missing key included. */
  function Lookup(s: map<string, Cell>, key: string): (r: string)
    ensures r == "on" || r == "off"
    ensures r == "on" <==> key in s && Truthy(s[key])
  {
    if key in s && Truthy(s[key]) then "on" else "off"
  }

  /** With the factory settings only type inference reads "on". */
  lemma DefaultsRead(key: string)
    ensures Lookup(Defaults(), key) == "on" <==> key == "infer_data_types"
  {
  }

  /** `set_setting` on a settings dictionary: the value is lower-cased and
      stripped; an unknown key or a value other than "on"/"off" is reported
      and nothing changes; otherwise only that key changes. */
  function SetResult(s: map<string, Cell>, key: string, value: string): (r: (map<string, Cell>, Outcome))
    ensures key !in Definitions ==> r == (s, Rejected(InvalidSetting))
    ensures r.1 != Done ==> r.0 == s
    ensures r.1 == Done <==> key in Definitions && (Trim(Lower(value)) == "on" || Trim(Lower(value)) == "off")
    ensures r.1 == Done ==> r.0.Keys == s.Keys + {key} && r.0[key].B?
  {
    var v := Trim(Lower(value));
    if key !in Definitions then (s, Rejected(InvalidSetting))
    else if v == "on" then (s[key := B(true)], Done)
    else if v == "off" then (s[key := B(false)], Done)
    else (s, Rejected(InvalidAnswer))
  }

  /** Reading a setting just set gives back the answer typed, in its
      lower-cased, stripped form. */
  lemma GetAfterSet(s: map<string, Cell>, key: string, value: string)
    requires SetResult(s, key, value).1 == Done
    ensures Lookup(SetResult(s, key, value).0, key) == Trim(Lower(value))
  {
  }

  /** Setting one key leaves every other key as it was. */
  lemma SetKeepsOthers(s: map<string, Cell>, key: string, value: string, other: string)
    requires other != key
    ensures other in SetResult(s, key, value).0 <==> other in s
    ensures other in s ==> SetResult(s, key, value).0[other] == s[other]
    ensures Lookup(SetResult(s, key, value).0, other) == Lookup(s, other)
  {
  }

  /** Case and surrounding blanks in the answer do not matter. */
  lemma SetIgnoresCaseAndBlanks(s: map<string, Cell>, key: string)
    requires key in Definitions
    ensures SetResult(s, key, " ON ") == SetResult(s, key, "on")
  {
    assert Lower(" ON ") == " on ";
    TrimFacts(" on ");
    TrimFacts("on");
    assert Trim(" on ") == "on" by {
      assert TrimStart(" on ") == TrimStart("on ");
      assert TrimStart("on ") == "on ";
      assert TrimEnd("on ") == TrimEnd("on");
    }
    assert Lower("on") == "on";
  }

  /** `return_settings_to_default`: only the answer "y", exactly as typed,
      resets; "n" cancels; anything else is reported. */
  function ResetResult(s: map<string, Cell>, confirm: string): (r: (map<string, Cell>, Outcome))
    ensures r.1 == Done <==> confirm == "y"
    ensures r.1 == Done ==> r.0 == Defaults()
    ensures r.1 != Done ==> r.0 == s
  {
    if confirm == "y" then (Defaults(), Done)
    else if confirm == "n" then (s, Cancelled)
    else (s, Rejected(InvalidAnswer))
  }

  /** Resetting is idempotent, and after it every setting reads as after a
      fresh start without a settings file. */
  lemma ResetTwice(s: map<string, Cell>)
    ensures ResetResult(ResetResult(s, "y").0, "y") == ResetResult(s, "y")
    ensures forall k :: Lookup(ResetResult(s, "y").0, k) == Lookup(Defaults(), k)
  {
  }

  /** The settings object: the dictionary read at start-up. */
  class Settings {
    var settings: map<string, Cell>

    /** `load_settings_from_file`: the file's dictionary, or the factory
        settings when the file is missing or corrupt (None). */
    constructor(file: Option<map<string, Cell>>)
      ensures file.Some? ==> settings == file.value
      ensures file.None? ==> settings == Defaults()
    {
      settings := if file.Some? then file.value else Defaults();
    }

    function GetSetting(key: string): string
      reads this
    {
      Lookup(settings, key)
    }

    method SetSetting(key: string, value: string) returns (out: Outcome)
      modifies this
      ensures (settings, out) == SetResult(old(settings), key, value)
    {
      var v := Trim(Lower(value));
      if key !in Definitions {
        return Rejected(InvalidSetting);
      }
      if v == "on" {
        settings := settings[key := B(true)];
      } else if v == "off" {
        settings := settings[key := B(false)];
      } else {
        return Rejected(InvalidAnswer);
      }
      out := Done;
    }

    method ReturnToDefault(confirm: string) returns (out: Outcome)
      modifies this
      ensures (settings, out) == ResetResult(old(settings), confirm)
    {
      if confirm == "y" {
        settings := Defaults();
        out := Done;
      } else if confirm == "n" {
        out := Cancelled;
      } else {
        out := Rejected(InvalidAnswer);
      }
    }
  }
}
