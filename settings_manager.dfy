/** The settings page (`src/pages/admin/SettingsManager.tsx`): the footer
    settings object, built from the fetched rows, edited key by key, and
    saved as one upsert per entry into the `settings` table, which is keyed
    by `key`. */
module SettingsManager {
  import opened Common

  // ---------------------------------------------------------------------------
  // The settings object

  /** A plain object from setting key to text, as its entries in insertion
      order (the footer keys are not array indices, so JavaScript keeps them
      in insertion order). */
  type Settings = seq<(string, string)>

  function Keys(s: Settings): (keys: seq<string>)
    ensures |keys| == |s|
    ensures forall i :: 0 <= i < |s| ==> keys[i] == s[i].0
  {
    if s == [] then [] else [s[0].0] + Keys(s[1..])
  }

  predicate DistinctKeys(s: Settings) {
    forall i, j :: 0 <= i < j < |s| ==> s[i].0 != s[j].0
  }

  /** `settings[key]`, `None` for a key the object does not have. */
  function Lookup(s: Settings, key: string): Option<string> {
    if s == [] then None
    else if s[0].0 == key then Some(s[0].1)
    else Lookup(s[1..], key)
  }

  /** A key has a value exactly when it is one of the keys, and the value
      is the one stored with it. */
  lemma {:induction false} LookupFindsEntry(s: Settings, key: string)
    ensures Lookup(s, key).Some? <==> key in Keys(s)
    ensures Lookup(s, key).Some? ==> (key, Lookup(s, key).value) in s
  {
    if s != [] {
      LookupFindsEntry(s[1..], key);
      assert Keys(s) == [s[0].0] + Keys(s[1..]);
    }
  }

  /** `{ ...s, [key]: value }`, or `s[key] = value`: an existing key keeps its
      place, a new one goes last. */
  function Put(s: Settings, key: string, value: string): (r: Settings)
    ensures Lookup(r, key) == Some(value)
    ensures forall other :: other != key ==> Lookup(r, other) == Lookup(s, other)
  {
    if s == [] then [(key, value)]
    else if s[0].0 == key then [(key, value)] + s[1..]
    else [s[0]] + Put(s[1..], key, value)
  }

  /** An existing key keeps its place and a new one goes last. */
  lemma {:induction false} PutKeys(s: Settings, key: string, value: string)
    ensures Keys(Put(s, key, value)) == if key in Keys(s) then Keys(s) else Keys(s) + [key]
  {
    if s != [] && s[0].0 != key {
      PutKeys(s[1..], key, value);
      assert Keys(s) == [s[0].0] + Keys(s[1..]);
      assert Put(s, key, value) == [s[0]] + Put(s[1..], key, value);
      assert Keys(Put(s, key, value)) == [s[0].0] + Keys(Put(s[1..], key, value));
    }
  }

  lemma PutKeepsKeysDistinct(s: Settings, key: string, value: string)
    requires DistinctKeys(s)
    ensures DistinctKeys(Put(s, key, value))
  {
    var r := Put(s, key, value);
    PutKeys(s, key, value);
    assert Keys(r) == if key in Keys(s) then Keys(s) else Keys(s) + [key];
    forall i, j | 0 <= i < j < |r| ensures r[i].0 != r[j].0 {
      assert Keys(r)[i] == r[i].0 && Keys(r)[j] == r[j].0;
      if j == |s| {
        assert key !in Keys(s);
        assert Keys(s)[i] == r[i].0;
      } else {
        assert Keys(s)[i] == r[i].0 && Keys(s)[j] == r[j].0;
      }
    }
  }

  /** The object the page starts with. */
  function InitialSettings(): Settings {
    [("footer_text_en", ""), ("footer_text_vi", ""), ("footer_tagline_en", ""), ("footer_tagline_vi", "")]
  }

  // ---------------------------------------------------------------------------
  // The settings table

  /** A row of the `settings` table (its id and timestamp are not modelled). */
  datatype SettingRow = SettingRow(key: string, valueEn: Option<string>, valueVi: Option<string>, description: Option<string>)

  /** What the table holds under one key. */
  datatype Stored = Stored(valueEn: Option<string>, valueVi: Option<string>, description: Option<string>)

  /** What a row contributes to the page: `value_en || ''`. */
  function ShownValue(row: SettingRow): string {
    row.valueEn.GetOr("")
  }

  /** `settingsMap`: each row in turn sets its key, so a later row with the
      same key overwrites an earlier one. */
  function BuildSettings(rows: seq<SettingRow>): Settings {
    if rows == [] then []
    else
      var last := rows[|rows| - 1];
      Put(BuildSettings(rows[..|rows| - 1]), last.key, ShownValue(last))
  }

  /** The loaded object never has a key twice. */
  lemma {:induction false} BuildSettingsDistinct(rows: seq<SettingRow>)
    ensures DistinctKeys(BuildSettings(rows))
  {
    if rows != [] {
      var last := rows[|rows| - 1];
      BuildSettingsDistinct(rows[..|rows| - 1]);
      PutKeepsKeysDistinct(BuildSettings(rows[..|rows| - 1]), last.key, ShownValue(last));
    }
  }

  /** Row `i` is the last one carrying `key`. */
  predicate LastWithKey(rows: seq<SettingRow>, key: string, i: int) {
    0 <= i < |rows| && rows[i].key == key && forall j :: i < j < |rows| ==> rows[j].key != key
  }

  /** A key is in the loaded object exactly when some row carries it. */
  lemma {:induction false} BuildSettingsHasKey(rows: seq<SettingRow>, key: string)
    ensures Lookup(BuildSettings(rows), key).Some? <==> exists i :: 0 <= i < |rows| && rows[i].key == key
  {
    if rows != [] {
      var n := |rows| - 1;
      var init := rows[..n];
      assert BuildSettings(rows) == Put(BuildSettings(init), rows[n].key, ShownValue(rows[n]));
      if rows[n].key != key {
        BuildSettingsHasKey(init, key);
        if exists i :: 0 <= i < |rows| && rows[i].key == key {
          var i :| 0 <= i < |rows| && rows[i].key == key;
          assert init[i].key == key;
        }
      }
    }
  }

  /** The loaded object holds, under each key, the value of the last row
      that carries it. */
  lemma {:induction false} BuildSettingsLastRowWins(rows: seq<SettingRow>, key: string, i: int)
    requires LastWithKey(rows, key, i)
    ensures Lookup(BuildSettings(rows), key) == Some(ShownValue(rows[i]))
  {
    var n := |rows| - 1;
    var init := rows[..n];
    assert BuildSettings(rows) == Put(BuildSettings(init), rows[n].key, ShownValue(rows[n]));
    if i < n {
      assert rows[n].key != key;
      assert LastWithKey(init, key, i);
      BuildSettingsLastRowWins(init, key, i);
    }
  }

  /** What `handleSubmit` sends for one entry. */
  datatype Payload = Payload(key: string, valueEn: string, description: string)

  /** One payload per entry, in entry order; `value_vi` is never sent. */
  function Payloads(s: Settings): (ps: seq<Payload>)
    ensures |ps| == |s|
    ensures forall i :: 0 <= i < |s| ==> ps[i] == Payload(s[i].0, s[i].1, "Footer setting: " + s[i].0)
  {
    if s == [] then [] else [Payload(s[0].0, s[0].1, "Footer setting: " + s[0].0)] + Payloads(s[1..])
  }

  /** One upsert with `onConflict: 'key'`: an existing row has its
      `value_en` and `description` replaced and keeps its `value_vi`; a new
      row gets a null `value_vi`. */
  function Upserted(rows: map<string, Stored>, p: Payload): map<string, Stored> {
    rows[p.key := Stored(Some(p.valueEn),
                             if p.key in rows then rows[p.key].valueVi else None,
                             Some(p.description))]
  }

  /** The upserts applied in order. */
  function ApplyUpserts(rows: map<string, Stored>, ps: seq<Payload>): map<string, Stored> {
    if ps == [] then rows else Upserted(ApplyUpserts(rows, ps[..|ps| - 1]), ps[|ps| - 1])
  }

  /** Applying one more upsert of the list. */
  lemma ApplyUpsertsStep(rows: map<string, Stored>, ps: seq<Payload>, i: int)
    requires 0 <= i < |ps|
    ensures ApplyUpserts(rows, ps[..i + 1]) == Upserted(ApplyUpserts(rows, ps[..i]), ps[i])
  {
    assert ps[..i + 1][..i] == ps[..i];
  }

  /** No two payloads name the same key. */
  predicate DistinctPayloadKeys(ps: seq<Payload>) {
    forall i, j :: 0 <= i < j < |ps| ==> ps[i].key != ps[j].key
  }

  /** The row a payload leaves when nothing after it names the same key. */
  function StoredRow(before: map<string, Stored>, p: Payload): Stored {
    Stored(Some(p.valueEn), if p.key in before then before[p.key].valueVi else None, Some(p.description))
  }

  /** Upserts that never name `k` leave its row as it was, or absent. */
  lemma {:induction false} UpsertsFrame(before: map<string, Stored>, ps: seq<Payload>, k: string)
    requires forall i :: 0 <= i < |ps| ==> ps[i].key != k
    ensures k in ApplyUpserts(before, ps) <==> k in before
    ensures k in before ==> ApplyUpserts(before, ps)[k] == before[k]
  {
    if ps != [] {
      var n := |ps| - 1;
      assert ps[n].key != k;
      UpsertsFrame(before, ps[..n], k);
    }
  }

  /** After upserts with distinct keys every payload's row holds its value
      and description and the `value_vi` it had before. */
  lemma {:induction false} UpsertsStoreEachPayload(before: map<string, Stored>, ps: seq<Payload>, i: int)
    requires DistinctPayloadKeys(ps) && 0 <= i < |ps|
    ensures ps[i].key in ApplyUpserts(before, ps)
    ensures ApplyUpserts(before, ps)[ps[i].key] == StoredRow(before, ps[i])
  {
    var n := |ps| - 1;
    var init := ps[..n];
    if i == n {
      assert forall j :: 0 <= j < n ==> init[j].key != ps[n].key;
      UpsertsFrame(before, init, ps[n].key);
    } else {
      assert DistinctPayloadKeys(init);
      assert init[i] == ps[i] && ps[i].key != ps[n].key;
      UpsertsStoreEachPayload(before, init, i);
    }
  }

  /** Saving an object with distinct keys stores each entry's value under
      its key and touches no other row. */
  lemma SaveStoresSettings(before: map<string, Stored>, s: Settings)
    requires DistinctKeys(s)
    ensures forall i :: 0 <= i < |s| ==>
      s[i].0 in ApplyUpserts(before, Payloads(s)) &&
      ApplyUpserts(before, Payloads(s))[s[i].0].valueEn == Some(s[i].1) &&
      ApplyUpserts(before, Payloads(s))[s[i].0].description == Some("Footer setting: " + s[i].0)
    ensures forall k :: k !in Keys(s) ==>
      (k in ApplyUpserts(before, Payloads(s)) <==> k in before) &&
      (k in before ==> ApplyUpserts(before, Payloads(s))[k] == before[k])
  {
    var ps := Payloads(s);
    assert DistinctPayloadKeys(ps) by {
      forall i, j | 0 <= i < j < |ps| ensures ps[i].key != ps[j].key {
        assert ps[i].key == s[i].0 && ps[j].key == s[j].0;
      }
    }
    var after := ApplyUpserts(before, ps);
    forall i | 0 <= i < |s|
      ensures s[i].0 in after && after[s[i].0].valueEn == Some(s[i].1) &&
              after[s[i].0].description == Some("Footer setting: " + s[i].0)
    {
      UpsertsStoreEachPayload(before, ps, i);
      assert ps[i] == Payload(s[i].0, s[i].1, "Footer setting: " + s[i].0);
    }
    forall k | k !in Keys(s)
      ensures (k in after <==> k in before) && (k in before ==> after[k] == before[k])
    {
      forall i | 0 <= i < |ps| ensures ps[i].key != k {
        assert Keys(s)[i] == s[i].0 == ps[i].key;
      }
      UpsertsFrame(before, ps, k);
    }
  }

  /** The `settings` table, keyed by `key`: at most one row per key. */
  class SettingsTable {
    var rows: map<string, Stored>

    constructor (initial: map<string, Stored>)
      ensures rows == initial
    {
      rows := initial;
    }

    /** `upsert(p, { onConflict: 'key' })`; `ok` is false when the call
        reports an error, which leaves the table as it was. */
    method Upsert(p: Payload, ok: bool)
      modifies this
      ensures rows == if ok then Upserted(old(rows), p) else old(rows)
    {
      if ok {
        rows := Upserted(rows, p);
      }
    }
  }

  /** How many upserts succeed when the one at `failAt` (if any) fails. */
  function Attempted(failAt: Option<nat>, count: nat): (n: nat)
    ensures n <= count
    ensures n < count <==> failAt.Some? && failAt.value < count
  {
    if failAt.Some? && failAt.value < count then failAt.value else count
  }

  datatype SaveOutcome = SaveFailed(index: nat) | SaveSucceeded

  class SettingsPage {
    var settings: Settings

    constructor ()
      ensures settings == InitialSettings()
    {
      settings := InitialSettings();
    }

    /** `loadSettings`: `ok` is false when the query reports an error, which
        leaves the object alone; otherwise the object is replaced by the map
        built from the returned rows, so a key no row carries is gone. */
    method LoadSettings(ok: bool, data: Option<seq<SettingRow>>)
      modifies this
      ensures ok ==> settings == BuildSettings(data.GetOr([]))
      ensures !ok ==> settings == old(settings)
    {
      if !ok {
        return;
      }
      var rows := data.GetOr([]);
      var settingsMap: Settings := [];
      var i := 0;
      while i < |rows|
        invariant 0 <= i <= |rows|
        invariant settingsMap == BuildSettings(rows[..i])
      {
        assert rows[..i + 1][..i] == rows[..i];
        settingsMap := Put(settingsMap, rows[i].key, ShownValue(rows[i]));
        i := i + 1;
      }
      assert rows[..|rows|] == rows;
      settings := settingsMap;
    }

    /** `handleInputChange(key, value)` */
    method HandleInputChange(key: string, value: string)
      modifies this
      ensures settings == Put(old(settings), key, value)
    {
      settings := Put(settings, key, value);
    }

    /** `handleSubmit`: one upsert per entry, in order, stopping at the first
        that reports an error; `failAt` is the index of that upsert, if any.
        The upserts before it stay applied and none after it is made. */
    method HandleSubmit(table: SettingsTable, failAt: Option<nat>) returns (outcome: SaveOutcome)
      modifies table
      ensures var ps := Payloads(settings);
        && table.rows == ApplyUpserts(old(table.rows), ps[..Attempted(failAt, |ps|)])
        && outcome == if Attempted(failAt, |ps|) < |ps| then SaveFailed(Attempted(failAt, |ps|)) else SaveSucceeded
    {
      var updates := Payloads(settings);
      var before := table.rows;
      var i := 0;
      while i < |updates|
        invariant 0 <= i <= |updates|
        invariant failAt.Some? ==> i <= failAt.value
        invariant table.rows == ApplyUpserts(before, updates[..i])
      {
        var ok := failAt != Some(i);
        ApplyUpsertsStep(before, updates, i);
        table.Upsert(updates[i], ok);
        if !ok {
          return SaveFailed(i);
        }
        i := i + 1;
      }
      assert updates[..|updates|] == updates;
      outcome := SaveSucceeded;
    }
  }

  /** A save with no failing upsert stores every entry of the page's object
      and leaves the other rows alone. */
  lemma SuccessfulSaveStoresAll(before: map<string, Stored>, s: Settings, key: string)
    requires DistinctKeys(s)
    ensures var after := ApplyUpserts(before, Payloads(s)[..Attempted(None, |s|)]);
      && (Lookup(s, key).Some? ==> key in after && after[key].valueEn == Some(Lookup(s, key).value))
      && (Lookup(s, key).None? ==> (key in after <==> key in before) && (key in before ==> after[key] == before[key]))
  {
    assert Payloads(s)[..Attempted(None, |s|)] == Payloads(s);
    var after := ApplyUpserts(before, Payloads(s));
    SaveStoresSettings(before, s);
    var found := Lookup(s, key);
    LookupFindsEntry(s, key);
    if found.Some? {
      assert (key, found.value) in s;
      var i :| 0 <= i < |s| && s[i] == (key, found.value);
      assert s[i].0 in after && after[s[i].0].valueEn == Some(s[i].1);
    } else {
      assert key !in Keys(s);
    }
  }

  /** Loading and then saving without a failure writes, for each key some
      loaded row carries, the value of the last such row, and leaves every
      other row alone: a footer key missing from the table stays missing. */
  lemma LoadThenSave(before: map<string, Stored>, rows: seq<SettingRow>, key: string)
    ensures var after := ApplyUpserts(before, Payloads(BuildSettings(rows)));
      && (forall i :: LastWithKey(rows, key, i) ==> key in after && after[key].valueEn == Some(ShownValue(rows[i])))
      && ((forall i :: 0 <= i < |rows| ==> rows[i].key != key) ==> (key in after <==> key in before))
  {
    var s := BuildSettings(rows);
    BuildSettingsDistinct(rows);
    SuccessfulSaveStoresAll(before, s, key);
    assert Payloads(s)[..Attempted(None, |s|)] == Payloads(s);
    BuildSettingsHasKey(rows, key);
    forall i | LastWithKey(rows, key, i)
      ensures Lookup(s, key) == Some(ShownValue(rows[i]))
    {
      BuildSettingsLastRowWins(rows, key, i);
    }
  }
}
