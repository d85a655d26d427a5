/**
 * The club-information commands: admins upload a text record per topic ("what"), members
 * look it up. Discord, the YAML/markdown rendering and the JSON codec are left outside;
 * each command opens a PersistentGuildStore on the shared Database, as the cog does.
 */
module ClubInfo {
  import opened Wrappers
  import opened Storage
  import Store = ExtUtilPersistentStore
  import PersistentStore

  /** Attachments above this many bytes are refused. */
  const MaxContentBytes := 5120
  /** A guild may keep at most this many records. */
  const MaxRecords := 10

  // ----- Pure decision rules -----

  /** `str.lower()` on ASCII letters. */
  function Lower(s: string): (r: string)
    ensures |r| == |s| && NoUpperAscii(r)
    ensures forall i :: 0 <= i < |s| && 'A' <= s[i] <= 'Z' ==> r[i] as int == s[i] as int + 32
    ensures forall i :: 0 <= i < |s| && !('A' <= s[i] <= 'Z') ==> r[i] == s[i]
  {
    FoldString(s)
  }

  lemma LowerIdempotent(s: string)
    ensures Lower(Lower(s)) == Lower(s)
  {
    NoUpperFoldsToItself(Lower(s));
  }

  /** The parsed content type of an attachment: `mimeparse.parse_mime_type` is not modelled. */
  datatype Mime = Mime(mainType: string, subType: string, params: map<string, string>)

  /** An uploaded file; `decoded` is its bytes decoded with its charset, which is not modelled either. */
  datatype Attachment = Attachment(filename: string, contentType: Mime, size: int, decoded: string)

  datatype LastUpdated = LastUpdated(userId: int, timestamp: int)

  /** The record stored (JSON-encoded) for one topic. */
  datatype Record = Record(content: string, charset: string, kind: string, what: string, lastUpdated: LastUpdated)

  /** Why an update is refused. */
  datatype Rejection = NotText(mainType: string) | TooLarge(size: int) | TooMany

  /**
   * The three admission checks of an update, in the source's order: the main MIME type
   * must be "text", the size at most MaxContentBytes, and the guild must hold fewer than
   * MaxRecords keys (counting the key being replaced, if it exists).
   */
  function Admission(mainType: string, size: int, keyCount: nat): (r: Option<Rejection>)
    ensures r == None <==> mainType == "text" && size <= MaxContentBytes && keyCount < MaxRecords
    ensures mainType != "text" ==> r == Some(NotText(mainType))
    ensures mainType == "text" && size > MaxContentBytes ==> r == Some(TooLarge(size))
    ensures r == Some(TooMany) <==> mainType == "text" && size <= MaxContentBytes && keyCount >= MaxRecords
  {
    if mainType != "text" then Some(NotText(mainType))
    else if size > MaxContentBytes then Some(TooLarge(size))
    else if keyCount >= MaxRecords then Some(TooMany)
    else None
  }

  /** The charset parameter of the content type, "utf-8" when it has none. */
  function Charset(m: Mime): (c: string)
    ensures "charset" in m.params ==> c == m.params["charset"]
    ensures "charset" !in m.params ==> c == "utf-8"
  {
    if "charset" in m.params then m.params["charset"] else "utf-8"
  }

  /** `str.rfind`: the last index of c in s, or -1. */
  function LastIndex(s: string, c: char): (i: int)
    ensures -1 <= i < |s|
    ensures i >= 0 ==> s[i] == c
    ensures forall j :: i < j < |s| ==> s[j] != c
  {
    if s == [] then -1
    else if s[|s| - 1] == c then |s| - 1
    else LastIndex(s[..|s| - 1], c)
  }

  /** The postcondition of LastIndex determines it. */
  lemma LastIndexAt(s: string, c: char, i: int)
    requires -1 <= i < |s| && (i >= 0 ==> s[i] == c)
    requires forall j :: i < j < |s| ==> s[j] != c
    ensures LastIndex(s, c) == i
  {
  }

  /** True when p[from..to] holds a character other than '.'. */
  predicate HasNonDot(p: string, from: int, to: int)
    requires 0 <= from <= to <= |p|
  {
    exists j :: from <= j < to && p[j] != '.'
  }

  lemma HasNonDotGrows(p: string, from: int, mid: int, to: int)
    requires 0 <= from <= mid <= to <= |p|
    ensures HasNonDot(p, from, mid) ==> HasNonDot(p, from, to)
  {
    if HasNonDot(p, from, mid) {
      var k :| from <= k < mid && p[k] != '.';
      assert from <= k < to;
    }
  }

  /**
   * `os.path.splitext` (POSIX): the extension starts at the last '.' of the last path
   * component, unless everything before that dot in the component is dots.
   */
  function SplitExt(p: string): (r: (string, string))
    ensures r.0 + r.1 == p
    ensures r.1 == [] || (r.1[0] == '.' && forall j :: 0 < j < |r.1| ==> r.1[j] != '.' && r.1[j] != '/')
    ensures r.1 != [] ==> HasNonDot(p, LastIndex(p, '/') + 1, |r.0|)
    ensures r.1 == [] ==> forall j :: LastIndex(p, '/') < j < |p| && p[j] == '.' ==> !HasNonDot(p, LastIndex(p, '/') + 1, j)
  {
    var sep, dot := LastIndex(p, '/'), LastIndex(p, '.');
    LastDotDecides(p, sep, dot);
    if dot > sep && HasNonDot(p, sep + 1, dot) then (p[..dot], p[dot..]) else (p, [])
  }

  /**
   * Only the last dot matters: when some dot after sep has a non-dot between sep and it,
   * so does dot, the last dot of p.
   */
  lemma LastDotDecides(p: string, sep: int, dot: int)
    requires -1 <= sep < |p| && -1 <= dot < |p|
    requires forall k :: dot < k < |p| ==> p[k] != '.'
    ensures !(dot > sep && HasNonDot(p, sep + 1, dot)) ==>
      forall j :: sep < j < |p| && p[j] == '.' ==> !HasNonDot(p, sep + 1, j)
  {
    forall j | sep < j < |p| && p[j] == '.'
      ensures HasNonDot(p, sep + 1, j) ==> dot > sep && HasNonDot(p, sep + 1, dot)
    {
      assert j <= dot;
      HasNonDotGrows(p, sep + 1, j, dot);
    }
  }

  /** An extension that meets the conditions of SplitExt starts at the last dot, after the last slash. */
  lemma ExtensionAtLastDot(p: string, stem: string, ext: string)
    requires stem + ext == p && ext != [] && ext[0] == '.'
    requires forall j :: 0 < j < |ext| ==> ext[j] != '.' && ext[j] != '/'
    ensures LastIndex(p, '.') == |stem| && LastIndex(p, '/') < |stem|
  {
    forall j | |stem| < j < |p| ensures p[j] != '.' && p[j] != '/' {
      assert p[j] == ext[j - |stem|];
    }
    assert p[|stem|] == ext[0];
    LastIndexAt(p, '.', |stem|);
  }

  /** The conditions of SplitExt determine the split: no other division of p meets them. */
  lemma SplitExtUnique(p: string, stem: string, ext: string)
    requires stem + ext == p
    requires ext == [] || (ext[0] == '.' && forall j :: 0 < j < |ext| ==> ext[j] != '.' && ext[j] != '/')
    requires ext != [] ==> HasNonDot(p, LastIndex(p, '/') + 1, |stem|)
    requires ext == [] ==> forall j :: LastIndex(p, '/') < j < |p| && p[j] == '.' ==> !HasNonDot(p, LastIndex(p, '/') + 1, j)
    ensures SplitExt(p) == (stem, ext)
  {
    var r := SplitExt(p);
    if r.1 != [] {
      ExtensionAtLastDot(p, r.0, r.1);
      assert p[|r.0|] == r.1[0];
    }
    if ext != [] {
      ExtensionAtLastDot(p, stem, ext);
      assert stem == p[..|stem|];
    } else {
      assert stem == p;
    }
  }

  /** The record type chosen from the file extension; the comparison is case-sensitive. */
  function RecordKind(extension: string): (k: string)
    ensures k == "yaml" <==> extension == ".yaml" || extension == ".yml"
    ensures k == "yaml" || k == "markdown"
  {
    if extension == ".yaml" || extension == ".yml" then "yaml" else "markdown"
  }

  /** The record `manage_club update` builds for an admitted attachment. */
  function MakeRecord(what: string, a: Attachment, userId: int, now: int): (r: Record)
    ensures r.content == a.decoded && r.what == what && r.lastUpdated == LastUpdated(userId, now)
    ensures r.charset == Charset(a.contentType)
    ensures r.kind == "yaml" <==> SplitExt(a.filename).1 == ".yaml" || SplitExt(a.filename).1 == ".yml"
    ensures r.kind == "yaml" || r.kind == "markdown"
  {
    Record(a.decoded, Charset(a.contentType), RecordKind(SplitExt(a.filename).1), what, LastUpdated(userId, now))
  }

  /** The name of the file the raw record is sent back as. */
  function RawFilename(r: Record): (f: string)
    ensures f == r.what + ".yml" || f == r.what + ".md"
    ensures f == r.what + ".yml" <==> r.kind == "yaml"
  {
    if r.kind == "yaml" then r.what + ".yml" else r.what + ".md"
  }

  /**
   * A record uploaded as .yaml or .yml is downloaded as "<what>.yml", anything else as
   * "<what>.md", with the charset of the upload or utf-8.
   */
  lemma DownloadNameFollowsUpload(what: string, a: Attachment, userId: int, now: int)
    ensures var ext := SplitExt(a.filename).1;
      var r := MakeRecord(what, a, userId, now);
      && RawFilename(r) == what + (if ext == ".yaml" || ext == ".yml" then ".yml" else ".md")
      && r.charset == (if "charset" in a.contentType.params then a.contentType.params["charset"] else "utf-8")
  {
  }

  /** Some file names and the record type they give. */
  lemma RecordKindExamples()
    ensures RecordKind(SplitExt("club.yml").1) == "yaml"
    ensures RecordKind(SplitExt("dir.v2/club.yaml").1) == "yaml"
    ensures RecordKind(SplitExt("club.YAML").1) == "markdown"
    ensures RecordKind(SplitExt(".yml").1) == "markdown"
    ensures RecordKind(SplitExt("notes.yml.txt").1) == "markdown"
  {
    LastIndexAt("club.yml", '/', -1);
    LastIndexAt("club.yml", '.', 4);
    assert "club.yml"[0] != '.';
    LastIndexAt("dir.v2/club.yaml", '/', 6);
    LastIndexAt("dir.v2/club.yaml", '.', 11);
    assert "dir.v2/club.yaml"[7] != '.';
    LastIndexAt("club.YAML", '/', -1);
    LastIndexAt("club.YAML", '.', 4);
    assert "club.YAML"[0] != '.';
    LastIndexAt(".yml", '.', 0);
    LastIndexAt("notes.yml.txt", '/', -1);
    LastIndexAt("notes.yml.txt", '.', 9);
    assert "notes.yml.txt"[0] != '.';
  }

  /** Python's `not raw_record`: no row, or a row holding the empty string. */
  predicate IsFalsy(raw: Option<string>) {
    raw == None || raw == Some("")
  }

  /**
   * With the ASCII folding of Lower, lower-casing the autocomplete text never changes which
   * keys it selects, because LIKE folds ASCII letters itself.
   */
  lemma AutocompleteLoweringIsHarmless(key: string, value: string)
    ensures Selected(key, Some(Lower(value))) <==> Selected(key, Some(value))
  {
    assert Lower(value) == "" <==> value == "";
    assert Lower(value) + "%" == FoldString(value + "%");
    LikeIgnoresPatternCase(key, value + "%");
  }

  // ----- The commands -----

  datatype UpdateOutcome = Rejected(reason: Rejection) | Saved(what: string) | Discarded(what: string) | TimedOut

  /** The reply after the preview: "yes" saves, "no" discards, no answer (a timeout) is neither. */
  function Confirmed(selection: Option<string>, what: string): (o: UpdateOutcome)
    ensures o.Saved? <==> selection == Some("yes")
    ensures o.Discarded? <==> selection == Some("no")
    ensures !o.Rejected?
    ensures o.Saved? || o.Discarded? ==> o.what == what
  {
    if selection == Some("yes") then Saved(what)
    else if selection == Some("no") then Discarded(what)
    else TimedOut
  }

  /**
   * `manage_club update`: what is lower-cased, the attachment goes through Admission, and the
   * record (encoded by dumps) is written under the lower-cased what only on a "yes".
   * The MIME and size checks come before any store is opened.
   */
  method ManageClubUpdate(db: Database, guildId: int, what: string, attachment: Attachment,
                          userId: int, now: int, selection: Option<string>, dumps: Record -> string)
    returns (outcome: UpdateOutcome)
    requires db.Valid()
    modifies db
    ensures db.Valid()
    ensures var rej := Admission(attachment.contentType.mainType, attachment.size, |GuildKeys(old(db.rows), guildId)|);
      outcome == if rej.Some? then Rejected(rej.value) else Confirmed(selection, Lower(what))
    ensures db.rows == if outcome.Saved?
      then Upsert(old(db.rows), guildId, Lower(what), dumps(MakeRecord(Lower(what), attachment, userId, now)))
      else old(db.rows)
    ensures db.userVersion == if attachment.contentType.mainType != "text" || attachment.size > MaxContentBytes
      then old(db.userVersion) else PersistentStore.InitialisedVersion(old(db.userVersion))
  {
    var key := Lower(what);
    var mime := attachment.contentType;
    if mime.mainType != "text" {
      return Rejected(NotText(mime.mainType));
    }
    if attachment.size > MaxContentBytes {
      return Rejected(TooLarge(attachment.size));
    }
    var counter := new Store.PersistentGuildStore(guildId, db);
    var keys := counter.GetKeys(Some(""));
    MatchingEmptyPrefixIsAll(db.rows, guildId);
    if |keys| >= MaxRecords {
      return Rejected(TooMany);
    }
    var record := MakeRecord(key, attachment, userId, now);
    outcome := Confirmed(selection, key);
    if selection == Some("yes") {
      var ps := new Store.PersistentGuildStore(guildId, db);
      ps.SetValue(key, dumps(record));
    }
  }

  /**
   * What `manage_club get` and `manage_club delete` send back: nothing found, or a file
   * whose body is `content` encoded in `charset` (the encoding itself is not modelled).
   */
  datatype RawReply = NoInformation(what: string) | RawContent(content: string, charset: string, filename: string)

  /** The raw record as a file, taken from the decoded record (loads stands for `json.loads`). */
  function RawReplyFor(what: string, stored: Option<string>, loads: string -> Record): (r: RawReply)
    ensures r.NoInformation? <==> IsFalsy(stored)
    ensures r.NoInformation? ==> r.what == what
    ensures r.RawContent? ==> (stored.Some? &&
      var record := loads(stored.value);
      r.content == record.content && r.charset == record.charset && r.filename == RawFilename(record))
  {
    if IsFalsy(stored) then NoInformation(what)
    else
      var record := loads(stored.value);
      RawContent(record.content, record.charset, RawFilename(record))
  }

  /**
   * Round trip of update and get: when loads inverts dumps on the stored record, the file
   * sent back is the uploaded text in the upload's charset, named after the upload's type.
   */
  lemma DownloadReturnsUpload(what: string, a: Attachment, userId: int, now: int,
                              dumps: Record -> string, loads: string -> Record)
    requires dumps(MakeRecord(what, a, userId, now)) != ""
    requires loads(dumps(MakeRecord(what, a, userId, now))) == MakeRecord(what, a, userId, now)
    ensures var ext := SplitExt(a.filename).1;
      RawReplyFor(what, Some(dumps(MakeRecord(what, a, userId, now))), loads)
        == RawContent(a.decoded, Charset(a.contentType), what + (if ext == ".yaml" || ext == ".yml" then ".yml" else ".md"))
  {
    DownloadNameFollowsUpload(what, a, userId, now);
  }

  /** `manage_club get`: looks what up as given (not lower-cased) and changes no row. */
  method ManageClubGet(db: Database, guildId: int, what: string, loads: string -> Record) returns (r: RawReply)
    requires db.Valid()
    modifies db
    ensures db.Valid() && db.rows == old(db.rows)
    ensures db.userVersion == PersistentStore.InitialisedVersion(old(db.userVersion))
    ensures r == RawReplyFor(what, Lookup(db.rows, guildId, what, None), loads)
  {
    var ps := new Store.PersistentGuildStore(guildId, db);
    var raw := ps.GetValue(what, None);
    r := RawReplyFor(what, raw, loads);
  }

  /** `manage_club delete`: removes exactly the row of what (as given), if it holds a record. */
  method ManageClubDelete(db: Database, guildId: int, what: string, loads: string -> Record) returns (r: RawReply)
    requires db.Valid()
    modifies db
    ensures db.Valid()
    ensures db.userVersion == PersistentStore.InitialisedVersion(old(db.userVersion))
    ensures r == RawReplyFor(what, Lookup(old(db.rows), guildId, what, None), loads)
    ensures db.rows == if r.NoInformation? then old(db.rows) else Delete(old(db.rows), guildId, what)
  {
    var ps := new Store.PersistentGuildStore(guildId, db);
    var raw := ps.GetValue(what, None);
    r := RawReplyFor(what, raw, loads);
    if r.RawContent? {
      ps.DeleteValue(what);
    }
  }

  /** What `club` shows: nothing found, or the decoded record (rendered as an embed). */
  datatype ClubReply = NothingAbout(what: string) | Show(record: Record)

  /** `club`: looks up the lower-cased what and changes no row. */
  method Club(db: Database, guildId: int, what: string, loads: string -> Record) returns (r: ClubReply)
    requires db.Valid()
    modifies db
    ensures db.Valid() && db.rows == old(db.rows)
    ensures db.userVersion == PersistentStore.InitialisedVersion(old(db.userVersion))
    ensures var stored := Lookup(db.rows, guildId, Lower(what), None);
      r == if IsFalsy(stored) then NothingAbout(Lower(what)) else Show(loads(stored.value))
  {
    var key := Lower(what);
    var ps := new Store.PersistentGuildStore(guildId, db);
    var raw := ps.GetValue(key, None);
    if raw == None || raw == Some("") {
      r := NothingAbout(key);
    } else {
      r := Show(loads(raw.value));
    }
  }

  /** `get_what_values`: the autocomplete keys for the typed text, lower-cased; no guild means guild 0. */
  method GetWhatValues(db: Database, guildId: Option<int>, value: string) returns (keys: seq<string>)
    requires db.Valid()
    modifies db
    ensures db.Valid() && db.rows == old(db.rows)
    ensures db.userVersion == PersistentStore.InitialisedVersion(old(db.userVersion))
    ensures StrictlyAscending(keys)
    ensures forall k :: k in keys <==> k in GuildKeys(db.rows, guildId.GetOr(0)) && Selected(k, Some(Lower(value)))
  {
    var ps := new Store.PersistentGuildStore(guildId.GetOr(0), db);
    keys := ps.GetKeys(Some(Lower(value)));
  }
}
