/**
 * The older PersistentGuildStore under extensions/util, the one the club-info commands
 * use. Its SQL is the same as the packaged store's, so its contracts are too.
 */
module ExtUtilPersistentStore {
  import opened Wrappers
  import opened Storage
  import PersistentStore

  class PersistentGuildStore {
    const guildId: int
    const db: Database

    ghost predicate Valid()
      reads this, db
    {
      db.Valid() && db.userVersion != 0
    }

    /** Schema initialisation runs only at USER_VERSION 0 and leaves version 1. */
    constructor (guildId: int, db: Database)
      requires db.Valid()
      modifies db
      ensures Valid() && this.guildId == guildId && this.db == db
      ensures db.userVersion == PersistentStore.InitialisedVersion(old(db.userVersion))
      ensures db.rows == old(db.rows)
    {
      this.guildId := guildId;
      this.db := db;
      new;
      if db.userVersion == 0 {
        db.userVersion := 1;
      }
    }

    method GetValue(key: string, default: Option<string>) returns (value: Option<string>)
      requires Valid()
      ensures value == Lookup(db.rows, guildId, key, default)
    {
      if (guildId, key) in db.rows {
        value := Some(db.rows[(guildId, key)]);
      } else {
        value := default;
      }
    }

    method SetValue(key: string, value: string)
      requires Valid()
      modifies db
      ensures Valid() && db.userVersion == old(db.userVersion)
      ensures db.rows == Upsert(old(db.rows), guildId, key, value)
    {
      db.rows := db.rows[(guildId, key) := value];
    }

    method DeleteValue(key: string)
      requires Valid()
      modifies db
      ensures Valid() && db.userVersion == old(db.userVersion)
      ensures db.rows == Delete(old(db.rows), guildId, key)
    {
      db.rows := db.rows - {(guildId, key)};
    }

    method GetKeys(prefix: Option<string>) returns (result: seq<string>)
      requires Valid()
      ensures StrictlyAscending(result)
      ensures forall k :: k in result <==> k in GuildKeys(db.rows, guildId) && Selected(k, prefix)
      ensures |result| == |Matching(db.rows, guildId, prefix)|
    {
      var cursor := SelectKeys(db, guildId, prefix);
      result := [];
      for i := 0 to |cursor|
        invariant result == cursor[..i]
      {
        result := result + [cursor[i]];
      }
      assert result == cursor;
      forall k ensures k in result <==> k in GuildKeys(db.rows, guildId) && Selected(k, prefix) {
        MatchingIsGuildKeysFiltered(db.rows, guildId, prefix, k);
      }
    }
  }
}
