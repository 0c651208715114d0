/** SiteSettingsService.GetAll: every setting row folded into a key to value map. */
module SiteSettingsService {
  import opened Wrappers
  import opened Models
  import opened Store

  /**
   * The map the rows make when each one, in load order, is written under its
   * key. Its keys are exactly the rows' keys: there is no filtering.
   */
  function SettingsMap(rows: seq<SiteSetting>): (m: map<string, string>)
    ensures m.Keys == set s | s in rows :: s.key
  {
    if rows == [] then map[]
    else
      var n := |rows| - 1;
      var m := SettingsMap(rows[..n])[rows[n].key := rows[n].value];
      assert rows == rows[..n] + [rows[n]];
      m
  }

  /** A key holds the value of the last row with that key. */
  lemma {:induction false} LastRowWins(rows: seq<SiteSetting>, i: nat)
    requires i < |rows|
    requires forall j :: i < j < |rows| ==> rows[j].key != rows[i].key
    ensures SettingsMap(rows)[rows[i].key] == rows[i].value
  {
    var n := |rows| - 1;
    if i < n {
      LastRowWins(rows[..n], i);
    }
  }

  /** The primary key: no two rows share a key. */
  ghost predicate UniqueKeys(rows: seq<SiteSetting>)
  {
    forall i, j :: 0 <= i < j < |rows| ==> rows[i].key != rows[j].key
  }

  /** With unique keys the map has one entry per row. */
  lemma {:induction false} UniqueKeysOneEntryPerRow(rows: seq<SiteSetting>)
    requires UniqueKeys(rows)
    ensures |SettingsMap(rows)| == |rows|
  {
    if rows != [] {
      var n := |rows| - 1;
      var prefix := rows[..n];
      assert UniqueKeys(prefix);
      UniqueKeysOneEntryPerRow(prefix);
      var k := rows[n].key;
      assert k !in SettingsMap(prefix) by {
        forall s | s in prefix ensures s.key != k {
          var i :| 0 <= i < n && prefix[i] == s;
          assert rows[i].key != rows[n].key;
        }
      }
      assert SettingsMap(rows) == SettingsMap(prefix)[k := rows[n].value];
    }
  }

  /** With unique keys every row's value is found under its key. */
  lemma UniqueKeysEveryRowFound(rows: seq<SiteSetting>, s: SiteSetting)
    requires UniqueKeys(rows)
    requires s in rows
    ensures SettingsMap(rows)[s.key] == s.value
  {
    var i :| 0 <= i < |rows| && rows[i] == s;
    LastRowWins(rows, i);
  }

  /**
   * GetAll: on a failed read, the error and no map; otherwise the rows
   * written one at a time into a fresh map.
   */
  method GetAll(read: Read<SiteSetting>) returns (r: Result<map<string, string>, DbError>)
    ensures read.Failed? ==> r == Err(StoreError(read.cause))
    ensures read.Rows? ==> r == Ok(SettingsMap(read.rows))
  {
    if read.Failed? {
      return Err(StoreError(read.cause));
    }
    var settings := read.rows;
    var result: map<string, string> := map[];
    for i := 0 to |settings|
      invariant result == SettingsMap(settings[..i])
    {
      assert settings[..i + 1][..i] == settings[..i];
      result := result[settings[i].key := settings[i].value];
    }
    assert settings[..|settings|] == settings;
    return Ok(result);
  }
}
