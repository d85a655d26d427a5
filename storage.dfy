/**
 * The sqlite file behind PersistentGuildStore, as abstract state: the USER_VERSION
 * pragma and the rows of the `storage` table, keyed by (guild_id, key). Also the two
 * pieces of SQL the stores rely on: `key LIKE 'prefix%'` and `ORDER BY key ASC`.
 */
module Storage {
  import opened Wrappers

  type Row = (int, string)

  /**
   * One database file. The `storage` table exists exactly when USER_VERSION is not 0,
   * since only the store's schema initialisation creates it.
   */
  class Database {
    var userVersion: int
    var rows: map<Row, string>

    ghost predicate Valid()
      reads this
    {
      userVersion == 0 ==> rows == map[]
    }

    /** A new, empty file. */
    constructor Empty()
      ensures Valid() && userVersion == 0 && rows == map[]
    {
      userVersion := 0;
      rows := map[];
    }

    /** A file found on disk with the given version and rows. */
    constructor (userVersion: int, rows: map<Row, string>)
      requires userVersion == 0 ==> rows == map[]
      ensures Valid() && this.userVersion == userVersion && this.rows == rows
    {
      this.userVersion := userVersion;
      this.rows := rows;
    }
  }

  // ----- Lookup, upsert and delete on the rows -----

  /** `SELECT value ... WHERE guild_id=? AND key=?`, with default when no row matches. */
  function Lookup(rows: map<Row, string>, guild: int, key: string, default: Option<string>): Option<string> {
    if (guild, key) in rows then Some(rows[(guild, key)]) else default
  }

  /** `INSERT ... ON CONFLICT(guild_id, key) DO UPDATE SET value=?`. */
  function Upsert(rows: map<Row, string>, guild: int, key: string, value: string): (r: map<Row, string>)
    ensures r.Keys == rows.Keys + {(guild, key)} && r[(guild, key)] == value
    ensures forall row :: row in rows && row != (guild, key) ==> r[row] == rows[row]
  {
    rows[(guild, key) := value]
  }

  /** `DELETE FROM storage WHERE guild_id=? AND key=?`. */
  function Delete(rows: map<Row, string>, guild: int, key: string): (r: map<Row, string>)
    ensures r.Keys == rows.Keys - {(guild, key)}
    ensures forall row :: row in r ==> r[row] == rows[row]
  {
    rows - {(guild, key)}
  }

  /** The keys a guild has stored. */
  function GuildKeys(rows: map<Row, string>, guild: int): set<string> {
    set r | r in rows && r.0 == guild :: r.1
  }

  /** After an upsert the key reads back the new value, and every other (guild, key) reads as before. */
  lemma LookupAfterUpsert(rows: map<Row, string>, guild: int, key: string, value: string,
                          g: int, k: string, default: Option<string>)
    ensures Lookup(Upsert(rows, guild, key, value), guild, key, default) == Some(value)
    ensures (g, k) != (guild, key) ==> Lookup(Upsert(rows, guild, key, value), g, k, default) == Lookup(rows, g, k, default)
  {
  }

  /** After a delete the key reads as the default, and every other (guild, key) reads as before. */
  lemma LookupAfterDelete(rows: map<Row, string>, guild: int, key: string,
                          g: int, k: string, default: Option<string>)
    ensures Lookup(Delete(rows, guild, key), guild, key, default) == default
    ensures (g, k) != (guild, key) ==> Lookup(Delete(rows, guild, key), g, k, default) == Lookup(rows, g, k, default)
  {
  }

  /** Writes of one guild never change the keys another guild sees. */
  lemma GuildIsolation(rows: map<Row, string>, guild: int, key: string, value: string, other: int)
    requires other != guild
    ensures GuildKeys(Upsert(rows, guild, key, value), other) == GuildKeys(rows, other)
    ensures GuildKeys(Delete(rows, guild, key), other) == GuildKeys(rows, other)
  {
    var up, del := Upsert(rows, guild, key, value), Delete(rows, guild, key);
    forall k ensures k in GuildKeys(up, other) <==> k in GuildKeys(rows, other) {
      assert k in GuildKeys(up, other) <==> (other, k) in up;
      assert k in GuildKeys(rows, other) <==> (other, k) in rows;
    }
    forall k ensures k in GuildKeys(del, other) <==> k in GuildKeys(rows, other) {
      assert k in GuildKeys(del, other) <==> (other, k) in del;
      assert k in GuildKeys(rows, other) <==> (other, k) in rows;
    }
  }

  /** The guild's own keys after an upsert and a delete. */
  lemma GuildKeysAfterWrite(rows: map<Row, string>, guild: int, key: string, value: string)
    ensures GuildKeys(Upsert(rows, guild, key, value), guild) == GuildKeys(rows, guild) + {key}
    ensures GuildKeys(Delete(rows, guild, key), guild) == GuildKeys(rows, guild) - {key}
  {
    var up, del := Upsert(rows, guild, key, value), Delete(rows, guild, key);
    forall k ensures k in GuildKeys(up, guild) <==> k in GuildKeys(rows, guild) + {key} {
      assert k in GuildKeys(up, guild) <==> (guild, k) in up;
      assert k in GuildKeys(rows, guild) <==> (guild, k) in rows;
    }
    forall k ensures k in GuildKeys(del, guild) <==> k in GuildKeys(rows, guild) - {key} {
      assert k in GuildKeys(del, guild) <==> (guild, k) in del;
      assert k in GuildKeys(rows, guild) <==> (guild, k) in rows;
    }
  }

  // ----- LIKE -----

  /** SQLite folds ASCII letters, and only those, when it compares LIKE patterns. */
  function FoldAscii(c: char): (d: char)
    ensures !('A' <= d <= 'Z')
    ensures 'A' <= c <= 'Z' ==> d as int == c as int + 32
    ensures 'A' <= c <= 'Z' || d == c
  {
    if 'A' <= c <= 'Z' then (c as int + 32) as char else c
  }

  function FoldString(s: string): (t: string)
    ensures |t| == |s| && forall i :: 0 <= i < |s| ==> t[i] == FoldAscii(s[i])
  {
    if s == [] then [] else [FoldAscii(s[0])] + FoldString(s[1..])
  }

  /**
   * `s LIKE p` without an ESCAPE clause: '%' stands for any run of characters, '_' for
   * any one character, and other characters match up to ASCII case.
   */
  predicate Like(s: string, p: string)
    decreases |s| + |p|
  {
    if p == [] then s == []
    else if p[0] == '%' then Like(s, p[1..]) || (s != [] && Like(s[1..], p))
    else s != [] && (p[0] == '_' || FoldAscii(p[0]) == FoldAscii(s[0])) && Like(s[1..], p[1..])
  }

  predicate NoWildcards(p: string) {
    forall i :: 0 <= i < |p| ==> p[i] != '%' && p[i] != '_'
  }

  predicate NoUpperAscii(s: string) {
    forall i :: 0 <= i < |s| ==> !('A' <= s[i] <= 'Z')
  }

  lemma {:induction false} LikePercent(s: string)
    ensures Like(s, "%")
  {
    if s != [] {
      LikePercent(s[1..]);
    }
  }

  /**
   * A pattern made of a prefix without wildcards and a trailing '%' matches exactly
   * the strings that start with that prefix up to ASCII case.
   */
  lemma {:induction false} LikePrefix(s: string, p: string)
    requires NoWildcards(p)
    ensures Like(s, p + "%") <==> |p| <= |s| && FoldString(s[..|p|]) == FoldString(p)
  {
    if p == [] {
      LikePercent(s);
      assert p + "%" == "%";
    } else {
      assert (p + "%")[1..] == p[1..] + "%";
      assert NoWildcards(p[1..]);
      if s != [] {
        LikePrefix(s[1..], p[1..]);
        if |p| <= |s| {
          assert s[1..][..|p| - 1] == s[..|p|][1..];
          var a, b := s[..|p|], p;
          assert FoldString(a) == [FoldAscii(a[0])] + FoldString(a[1..]);
          assert FoldString(b) == [FoldAscii(b[0])] + FoldString(b[1..]);
          assert FoldString(a) == FoldString(b) <==>
            FoldAscii(a[0]) == FoldAscii(b[0]) && FoldString(a[1..]) == FoldString(b[1..]);
        }
      }
    }
  }

  /** For keys and prefixes without ASCII capitals or wildcards, LIKE 'prefix%' is "starts with". */
  lemma LikePrefixIsStartsWith(s: string, p: string)
    requires NoWildcards(p) && NoUpperAscii(p) && NoUpperAscii(s)
    ensures Like(s, p + "%") <==> p <= s
  {
    LikePrefix(s, p);
    if |p| <= |s| {
      NoUpperFoldsToItself(s[..|p|]);
      NoUpperFoldsToItself(p);
    }
  }

  lemma NoUpperFoldsToItself(s: string)
    requires NoUpperAscii(s)
    ensures FoldString(s) == s
  {
  }

  /** Lower-casing the pattern never changes what LIKE matches. */
  lemma {:induction false} LikeIgnoresPatternCase(s: string, p: string)
    ensures Like(s, FoldString(p)) <==> Like(s, p)
    decreases |s| + |p|
  {
    var fp := FoldString(p);
    if p != [] {
      assert fp[1..] == FoldString(p[1..]);
      assert fp[0] == FoldAscii(p[0]);
      assert FoldAscii(fp[0]) == FoldAscii(p[0]);
      assert fp[0] == '%' <==> p[0] == '%';
      assert fp[0] == '_' <==> p[0] == '_';
      if p[0] == '%' {
        LikeIgnoresPatternCase(s, p[1..]);
        if s != [] {
          LikeIgnoresPatternCase(s[1..], p);
        }
      } else if s != [] {
        LikeIgnoresPatternCase(s[1..], p[1..]);
      }
    }
  }

  // ----- Key selection and ordering -----

  /**
   * The key filter of `get_keys`: a missing or empty prefix (both falsy in Python)
   * selects every key, any other prefix selects `key LIKE prefix || '%'`.
   */
  predicate Selected(key: string, prefix: Option<string>) {
    prefix == None || prefix.value == "" || Like(key, prefix.value + "%")
  }

  /** The keys `get_keys(prefix)` returns for a guild, as a set. */
  function Matching(rows: map<Row, string>, guild: int, prefix: Option<string>): set<string> {
    set r | r in rows && r.0 == guild && Selected(r.1, prefix) :: r.1
  }

  lemma MatchingEmptyPrefixIsAll(rows: map<Row, string>, guild: int)
    ensures Matching(rows, guild, None) == Matching(rows, guild, Some("")) == GuildKeys(rows, guild)
  {
  }

  lemma MatchingIsGuildKeysFiltered(rows: map<Row, string>, guild: int, prefix: Option<string>, k: string)
    ensures k in Matching(rows, guild, prefix) <==> k in GuildKeys(rows, guild) && Selected(k, prefix)
  {
    if k in GuildKeys(rows, guild) {
      assert (guild, k) in rows;
    }
    if k in Matching(rows, guild, prefix) {
      var r :| r in rows && r.0 == guild && Selected(r.1, prefix) && r.1 == k;
      assert r == (guild, k);
    }
  }

  /** The BINARY collation of sqlite: code point order, a proper prefix first. */
  predicate Less(a: string, b: string)
    decreases |a|
  {
    b != [] && (a == [] || a[0] < b[0] || (a[0] == b[0] && Less(a[1..], b[1..])))
  }

  lemma {:induction false} LessIrreflexive(a: string)
    ensures !Less(a, a)
  {
    if a != [] {
      LessIrreflexive(a[1..]);
    }
  }

  lemma {:induction false} LessTransitive(a: string, b: string, c: string)
    requires Less(a, b) && Less(b, c)
    ensures Less(a, c)
    decreases |a|
  {
    if a != [] && a[0] == b[0] && b[0] == c[0] {
      LessTransitive(a[1..], b[1..], c[1..]);
    }
  }

  lemma {:induction false} LessTotal(a: string, b: string)
    requires a != b
    ensures Less(a, b) || Less(b, a)
    decreases |a|
  {
    if a != [] && b != [] && a[0] == b[0] {
      assert a[1..] != b[1..] by {
        assert a == [a[0]] + a[1..] && b == [b[0]] + b[1..];
      }
      LessTotal(a[1..], b[1..]);
    }
  }

  /** Ascending without duplicates: what `ORDER BY key ASC` gives over a primary key. */
  predicate StrictlyAscending(s: seq<string>) {
    forall i, j :: 0 <= i < j < |s| ==> Less(s[i], s[j])
  }

  /** m comes before every other key of keys. */
  predicate IsLeast(m: string, keys: set<string>) {
    m in keys && forall k :: k in keys && k != m ==> Less(m, k)
  }

  /** A non-empty set of keys has a least element. */
  lemma {:induction false} LeastExists(keys: set<string>) returns (m: string)
    requires keys != {}
    ensures IsLeast(m, keys)
    decreases |keys|
  {
    var x :| x in keys;
    var rest := keys - {x};
    if rest == {} {
      m := x;
      assert keys == {x};
    } else {
      var n := LeastExists(rest);
      if Less(x, n) {
        m := x;
        forall k | k in keys && k != x ensures Less(x, k) {
          if k != n {
            assert k in rest;
            LessTransitive(x, n, k);
          }
        }
      } else {
        m := n;
        LessTotal(x, n);
        forall k | k in keys && k != n ensures Less(n, k) {
          if k != x {
            assert k in rest;
          }
        }
      }
    }
  }

  /** An ascending listing has no duplicates: it is as long as the set of its keys. */
  lemma {:induction false} AscendingListingSize(s: seq<string>)
    requires StrictlyAscending(s)
    ensures |set k | k in s| == |s|
  {
    if s != [] {
      var rest := s[1..];
      AscendingListingSize(rest);
      forall i | 0 <= i < |rest| ensures rest[i] != s[0] {
        assert Less(s[0], s[i + 1]);
        LessIrreflexive(s[0]);
      }
      assert s[0] !in (set k | k in rest);
      assert (set k | k in s) == {s[0]} + (set k | k in rest) by {
        assert s == [s[0]] + rest;
      }
    }
  }

  /** Two ascending listings of the same keys are the same listing: the order is determined. */
  lemma {:induction false} AscendingListingUnique(s: seq<string>, t: seq<string>)
    requires StrictlyAscending(s) && StrictlyAscending(t)
    requires forall k :: k in s <==> k in t
    ensures s == t
    decreases |s|
  {
    AscendingListingSize(s);
    AscendingListingSize(t);
    assert (set k | k in s) == (set k | k in t);
    if s != [] {
      assert s[0] in s && t[0] in t;
      if s[0] != t[0] {
        var i :| 0 <= i < |t| && t[i] == s[0];
        var j :| 0 <= j < |s| && s[j] == t[0];
        assert i != 0 && j != 0;
        assert Less(t[0], t[i]) && Less(s[0], s[j]);
        LessTransitive(s[0], t[0], s[0]);
        LessIrreflexive(s[0]);
      }
      forall k ensures k in s[1..] <==> k in t[1..] {
        if k in s[1..] {
          var i :| 0 <= i < |s| - 1 && s[1..][i] == k;
          assert Less(s[0], s[i + 1]);
          LessIrreflexive(k);
          assert k in t && k != t[0];
          var j :| 0 <= j < |t| && t[j] == k;
          assert t[1..][j - 1] == k;
        }
        if k in t[1..] {
          var i :| 0 <= i < |t| - 1 && t[1..][i] == k;
          assert Less(t[0], t[i + 1]);
          LessIrreflexive(k);
          assert k in s && k != s[0];
          var j :| 0 <= j < |s| && s[j] == k;
          assert s[1..][j - 1] == k;
        }
      }
      AscendingListingUnique(s[1..], t[1..]);
    }
  }

  /**
   * The rows a `SELECT key ... ORDER BY key ASC` cursor yields: the given keys, least first.
   * Every key comes out once, so the listing is as long as the set.
   */
  method OrderedCursor(keys: set<string>) returns (cursor: seq<string>)
    ensures StrictlyAscending(cursor)
    ensures forall k :: k in cursor <==> k in keys
    ensures |cursor| == |keys|
  {
    var remaining := keys;
    cursor := [];
    while remaining != {}
      invariant remaining <= keys
      invariant forall k :: k in cursor <==> k in keys && k !in remaining
      invariant StrictlyAscending(cursor)
      invariant forall i, k :: 0 <= i < |cursor| && k in remaining ==> Less(cursor[i], k)
      invariant |cursor| + |remaining| == |keys|
      decreases remaining
    {
      ghost var least := LeastExists(remaining);
      var m :| IsLeast(m, remaining);
      assert IsLeast(m, remaining);
      assert m in remaining;
      assert forall k :: k in remaining - {m} ==> Less(m, k);
      cursor := cursor + [m];
      remaining := remaining - {m};
    }
  }

  /** The cursor of `get_keys(prefix)` for one guild. */
  method SelectKeys(db: Database, guild: int, prefix: Option<string>) returns (cursor: seq<string>)
    ensures StrictlyAscending(cursor)
    ensures forall k :: k in cursor <==> k in Matching(db.rows, guild, prefix)
    ensures |cursor| == |Matching(db.rows, guild, prefix)|
  {
    cursor := OrderedCursor(Matching(db.rows, guild, prefix));
  }
}
