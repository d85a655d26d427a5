/**
 * PersistentGuildStore of the packaged bot: a view of the shared `storage` table
 * restricted to one guild, opened over a Database.
 */
module PersistentStore {
  import opened Wrappers
  import opened Storage

  /** The schema step of the constructor: only version 0 is initialised, to version 1. */
  function InitialisedVersion(userVersion: int): (v: int)
    ensures v != 0
    ensures userVersion != 0 ==> v == userVersion
    ensures userVersion == 0 ==> v == 1
  {
    if userVersion == 0 then 1 else userVersion
  }

  /** Opening twice is the same as opening once. */
  lemma InitialisationIdempotent(userVersion: int)
    ensures InitialisedVersion(InitialisedVersion(userVersion)) == InitialisedVersion(userVersion)
  {
  }

  class PersistentGuildStore {
    const guildId: int
    const db: Database

    /** The table exists: the constructor has run on this file. */
    ghost predicate Valid()
      reads this, db
    {
      db.Valid() && db.userVersion != 0
    }

    /**
     * Opens the store: when USER_VERSION is 0 it creates the (empty) table and sets the
     * version to 1; any other version leaves the file exactly as it was.
     */
    constructor (guildId: int, db: Database)
      requires db.Valid()
      modifies db
      ensures Valid() && this.guildId == guildId && this.db == db
      ensures db.userVersion == InitialisedVersion(old(db.userVersion))
      ensures db.rows == old(db.rows)
    {
      this.guildId := guildId;
      this.db := db;
      new;
      if db.userVersion == 0 {
        db.userVersion := 1;
      }
    }

    /** `get_value`: the stored value of key for this guild, or default; a miss is not an error. */
    method GetValue(key: string, default: Option<string>) returns (value: Option<string>)
      requires Valid()
      ensures value == Lookup(db.rows, guildId, key, default)
    {
      if (guildId, key) in db.rows {
        value := Some(db.rows[(guildId, key)]);
      } else {
        value := default;
      }
    }

    /** `set_value`: an upsert of the single (guild, key) row. */
    method SetValue(key: string, value: string)
      requires Valid()
      modifies db
      ensures Valid() && db.userVersion == old(db.userVersion)
      ensures db.rows == Upsert(old(db.rows), guildId, key, value)
    {
      db.rows := db.rows[(guildId, key) := value];
    }

    /** `delete_value`: removes this guild's row for key, if there is one. */
    method DeleteValue(key: string)
      requires Valid()
      modifies db
      ensures Valid() && db.userVersion == old(db.userVersion)
      ensures db.rows == Delete(old(db.rows), guildId, key)
    {
      db.rows := db.rows - {(guildId, key)};
    }

    /**
     * `get_keys`: this guild's keys in ascending order, each once; a falsy prefix selects
     * them all, any other prefix those matching `LIKE prefix || '%'`.
     */
    method GetKeys(prefix: Option<string>) returns (result: seq<string>)
      requires Valid()
      ensures StrictlyAscending(result)
      ensures forall k :: k in result <==> k in GuildKeys(db.rows, guildId) && Selected(k, prefix)
      ensures |result| == |Matching(db.rows, guildId, prefix)|
    {
      var cursor := SelectKeys(db, guildId, prefix);
      result := [];
      for i := 0 to |cursor|
        invariant result == cursor[..i]
      {
        result := result + [cursor[i]];
      }
      assert result == cursor;
      forall k ensures k in result <==> k in GuildKeys(db.rows, guildId) && Selected(k, prefix) {
        MatchingIsGuildKeysFiltered(db.rows, guildId, prefix, k);
      }
    }
  }

  /** The sequences of the store's tests, traced through the class. */
  method StoreScenario()
  {
    var db := new Database.Empty();
    var store := new PersistentGuildStore(123, db);
    assert db.userVersion == 1;
    var v := store.GetValue("abc", None);
    assert v == None;
    v := store.GetValue("abc", Some("default_value"));
    assert v == Some("default_value");
    store.SetValue("abc", "stored_value");
    v := store.GetValue("abc", None);
    assert v == Some("stored_value");
    store.DeleteValue("abc");
    v := store.GetValue("abc", None);
    assert v == None;

    var again := new PersistentGuildStore(123, db);
    assert db.userVersion == 1 && db.rows == map[];

    var other := new PersistentGuildStore(456, db);
    store.SetValue("abc", "store_a_value");
    other.SetValue("abc", "store_b_value");
    var a := store.GetValue("abc", None);
    var b := other.GetValue("abc", None);
    assert a == Some("store_a_value") && b == Some("store_b_value");
  }

  /** `get_keys` on the keys a_key, b_key and another_key. */
  method GetKeysScenario()
  {
    var db := new Database.Empty();
    var store := new PersistentGuildStore(123, db);
    store.SetValue("a_key", "value1");
    store.SetValue("b_key", "value2");
    store.SetValue("another_key", "value3");
    assert db.rows == ExampleRows();
    var all := store.GetKeys(None);
    ExampleListings();
    AscendingListingUnique(all, ["a_key", "another_key", "b_key"]);
    assert all == ["a_key", "another_key", "b_key"];
    var withA := store.GetKeys(Some("a"));
    AscendingListingUnique(withA, ["a_key", "another_key"]);
    assert withA == ["a_key", "another_key"];
  }

  function ExampleRows(): map<Row, string> {
    map[(123, "a_key") := "value1", (123, "b_key") := "value2", (123, "another_key") := "value3"]
  }

  /** The listings the store's tests expect are ascending and hold exactly the selected keys. */
  lemma ExampleListings()
    ensures StrictlyAscending(["a_key", "another_key", "b_key"])
    ensures StrictlyAscending(["a_key", "another_key"])
    ensures forall k :: k in GuildKeys(ExampleRows(), 123) && Selected(k, None) <==> k in ["a_key", "another_key", "b_key"]
    ensures forall k :: k in GuildKeys(ExampleRows(), 123) && Selected(k, Some("a")) <==> k in ["a_key", "another_key"]
  {
    assert Less("a_key", "another_key");
    assert Less("another_key", "b_key");
    assert Less("a_key", "b_key");
    assert GuildKeys(ExampleRows(), 123) == {"a_key", "another_key", "b_key"} by {
      forall k ensures k in GuildKeys(ExampleRows(), 123) <==> (123, k) in ExampleRows() {}
    }
    LikePrefixIsStartsWith("a_key", "a");
    LikePrefixIsStartsWith("another_key", "a");
    LikePrefixIsStartsWith("b_key", "a");
  }
}
