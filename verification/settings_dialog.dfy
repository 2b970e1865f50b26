/**
 * The settings dialog: the key/value flags handed to the text-to-speech
 * command line, edited one entry at a time. Each edit builds new settings
 * from the old ones, keeping every setting other than the flags.
 */
module SettingsDialog {
  import opened JsText

  /** The stored settings: the flags, and whatever else the stored object
      holds, which every edit carries over. */
  datatype AudioSettings = AudioSettings(flags: map<string, string>, others: map<string, string>)

  /** The dialog: the settings and the two inputs of the "new flag" row. */
  datatype Dialog = Dialog(settings: AudioSettings, newKey: string, newValue: string)

  /** The add button is enabled once the key has a non-blank character. */
  predicate CanAdd(newKey: string) {
    Trim(newKey) != ""
  }

  /** `addFlag`: with a blank key nothing happens; otherwise the trimmed key
      is set to the typed value (replacing an entry of that key) and both
      inputs are cleared. */
  function AddFlag(d: Dialog): (r: Dialog)
    ensures !CanAdd(d.newKey) ==> r == d
    ensures CanAdd(d.newKey) ==>
      && r.newKey == "" && r.newValue == ""
      && r.settings.others == d.settings.others
      && r.settings.flags.Keys == d.settings.flags.Keys + {Trim(d.newKey)}
      && r.settings.flags[Trim(d.newKey)] == d.newValue
      && (forall k :: k in d.settings.flags && k != Trim(d.newKey) ==> r.settings.flags[k] == d.settings.flags[k])
  {
    var key := Trim(d.newKey);
    if key != "" then
      Dialog(d.settings.(flags := d.settings.flags[key := d.newValue]), "", "")
    else d
  }

  /** `removeFlag`: the entry of the key is gone and every other is kept. */
  function RemoveFlag(s: AudioSettings, key: string): (r: AudioSettings)
    ensures r.others == s.others
    ensures r.flags.Keys == s.flags.Keys - {key}
    ensures forall k :: k in r.flags ==> r.flags[k] == s.flags[k]
  {
    s.(flags := s.flags - {key})
  }

  /** `updateFlag`: the key holds the new value and every other entry is
      kept. */
  function UpdateFlag(s: AudioSettings, key: string, value: string): (r: AudioSettings)
    ensures r.others == s.others
    ensures r.flags.Keys == s.flags.Keys + {key}
    ensures r.flags[key] == value
    ensures forall k :: k in s.flags && k != key ==> r.flags[k] == s.flags[k]
  {
    s.(flags := s.flags[key := value])
  }

  /** Every stored key is trimmed. */
  predicate KeysTrimmed(s: AudioSettings) {
    forall k :: k in s.flags ==> Trim(k) == k
  }

  lemma TrimIdempotent(s: string)
    ensures Trim(Trim(s)) == Trim(s)
  {
    TrimFixedPoints(Trim(s));
  }

  /** Keys only enter through the add row, trimmed, and the value inputs of
      the listed rows update existing keys: the stored keys stay trimmed. */
  lemma EditsKeepKeysTrimmed(d: Dialog, key: string, value: string)
    requires KeysTrimmed(d.settings)
    ensures KeysTrimmed(AddFlag(d).settings)
    ensures KeysTrimmed(RemoveFlag(d.settings, key))
    ensures key in d.settings.flags ==> KeysTrimmed(UpdateFlag(d.settings, key, value))
  {
    TrimIdempotent(d.newKey);
  }

  /** Removing a key that was just added restores the flags as they were
      without it; updating a key to the value it holds changes nothing. */
  lemma AddThenRemove(d: Dialog, key: string)
    requires CanAdd(d.newKey)
    ensures RemoveFlag(AddFlag(d).settings, Trim(d.newKey)) == RemoveFlag(d.settings, Trim(d.newKey))
    ensures key in d.settings.flags ==> UpdateFlag(d.settings, key, d.settings.flags[key]) == d.settings
  {
    var k := Trim(d.newKey);
    assert AddFlag(d).settings.flags - {k} == d.settings.flags - {k};
  }

  /** Adding is the update of the trimmed key, followed by clearing the row. */
  lemma AddIsUpdate(d: Dialog)
    requires CanAdd(d.newKey)
    ensures AddFlag(d) == Dialog(UpdateFlag(d.settings, Trim(d.newKey), d.newValue), "", "")
  {
  }
}
