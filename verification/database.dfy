/** src/data/database.js: the three in-memory collections (members, songs, scales),
    each with its own id counter, and the operations the routes and the seed use. */
module Database {
  import opened Wrappers
  import opened Table

  /** A member of the worship group. `password` holds the bcrypt hash, never the
      plaintext; `accessLevel` is "admin" or "common" whenever a route wrote it. */
  datatype Member = Member(name: string, email: string, password: string, voiceType: string, accessLevel: string)

  /** A song of the repertoire; `soloistId` refers to a member and is checked only
      when it is written. */
  datatype Song = Song(name: string, key: string, versionLink: string, lyrics: string, soloistId: int)

  /** One entry of a scale: which song is sung and by whom. */
  datatype Assignment = Assignment(musicId: int, soloistId: int)

  /** A dated rotation of songs and soloists; entry order is meaningful. */
  datatype Scale = Scale(name: string, date: string, songs: seq<Assignment>)

  /** The keys an update carries; an absent key keeps the stored value. */
  datatype MemberPatch = MemberPatch(
    name: Option<string>, email: Option<string>, password: Option<string>,
    voiceType: Option<string>, accessLevel: Option<string>)

  datatype SongPatch = SongPatch(
    name: Option<string>, key: Option<string>, versionLink: Option<string>,
    lyrics: Option<string>, soloistId: Option<int>)

  datatype ScalePatch = ScalePatch(name: Option<string>, date: Option<string>, songs: Option<seq<Assignment>>)

  /** The value after a shallow merge of one key: the update's when it has the key. */
  function Over<T>(update: Option<T>, current: T): (r: T)
    ensures update.Some? ==> r == update.value
    ensures update.None? ==> r == current
  {
    update.GetOr(current)
  }

  /** `{ ...member, ...updates }` restricted to the member's own fields. */
  function MergeMember(m: Member, p: MemberPatch): Member {
    Member(Over(p.name, m.name), Over(p.email, m.email), Over(p.password, m.password),
           Over(p.voiceType, m.voiceType), Over(p.accessLevel, m.accessLevel))
  }

  function MergeSong(s: Song, p: SongPatch): Song {
    Song(Over(p.name, s.name), Over(p.key, s.key), Over(p.versionLink, s.versionLink),
         Over(p.lyrics, s.lyrics), Over(p.soloistId, s.soloistId))
  }

  /** The entry list is one key: when present it replaces the old list wholesale. */
  function MergeScale(s: Scale, p: ScalePatch): Scale {
    Scale(Over(p.name, s.name), Over(p.date, s.date), Over(p.songs, s.songs))
  }

  /** The three module-level collections and their counters. */
  datatype Store = Store(members: Table<Member>, music: Table<Song>, scales: Table<Scale>)

  /** Every collection is well formed: unique, increasing ids below its counter. */
  predicate Valid(s: Store) {
    WellFormed(s.members) && WellFormed(s.music) && WellFormed(s.scales)
  }

  /** resetDatabase, which is also the state the module starts in. */
  function ResetDatabase(): (s: Store)
    ensures Valid(s)
    ensures s.members.rows == [] && s.music.rows == [] && s.scales.rows == []
    ensures s.members.nextId == 1 && s.music.nextId == 1 && s.scales.nextId == 1
  {
    Store(Empty(), Empty(), Empty())
  }

  // Members

  /** getMembers: the stored array itself, position by position, so the records in
      insertion order. Every member
      a lookup by id finds is listed, and every listed member can be looked up by its id. */
  function GetMembers(s: Store): (r: seq<Row<Member>>)
    ensures forall id :: GetMemberById(s, id).Some? ==> GetMemberById(s, id).value in r
    ensures forall k :: 0 <= k < |r| ==> GetMemberById(s, r[k].id).Some?
    ensures |r| == |s.members.rows| && forall k :: 0 <= k < |r| ==> r[k] == s.members.rows[k]
  {
    s.members.rows
  }

  /** getMemberById: Table.Find over the members, so the first stored member with that id,
      or null exactly when none has it. */
  function GetMemberById(s: Store, id: int): (r: Option<Row<Member>>)
    ensures r.Some? ==> r.value.id == id
  {
    Find(s.members.rows, id)
  }

  /** addMember: appends under the member counter and touches nothing else. */
  function AddMember(s: Store, m: Member): (r: (Store, Row<Member>))
    ensures r.1.id == s.members.nextId && r.1.fields == m
    ensures r.0.members.rows == s.members.rows + [r.1] && r.0.members.nextId == s.members.nextId + 1
    ensures r.0.music == s.music && r.0.scales == s.scales
  {
    var (t, row) := Add(s.members, None, m);
    (s.(members := t), row)
  }

  function UpdateMember(s: Store, id: int, p: Patch<MemberPatch>): (r: (Store, Option<Row<Member>>))
    ensures r.0.music == s.music && r.0.scales == s.scales
  {
    var (t, row) := Update(s.members, id, p, MergeMember);
    (s.(members := t), row)
  }

  function DeleteMember(s: Store, id: int): (r: (Store, bool))
    ensures r.0.music == s.music && r.0.scales == s.scales
  {
    var (t, deleted) := Delete(s.members, id);
    (s.(members := t), deleted)
  }

  // Songs

  /** getMusic: the stored array itself, position by position, so the records in
      insertion order. Every song
      a lookup by id finds is listed, and every listed song can be looked up by its id. */
  function GetMusic(s: Store): (r: seq<Row<Song>>)
    ensures forall id :: GetMusicById(s, id).Some? ==> GetMusicById(s, id).value in r
    ensures forall k :: 0 <= k < |r| ==> GetMusicById(s, r[k].id).Some?
    ensures |r| == |s.music.rows| && forall k :: 0 <= k < |r| ==> r[k] == s.music.rows[k]
  {
    s.music.rows
  }

  /** getMusicById: Table.Find over the songs, so the first stored song with that id,
      or null exactly when none has it. */
  function GetMusicById(s: Store, id: int): (r: Option<Row<Song>>)
    ensures r.Some? ==> r.value.id == id
  {
    Find(s.music.rows, id)
  }

  function AddMusic(s: Store, song: Song): (r: (Store, Row<Song>))
    ensures r.1.id == s.music.nextId && r.1.fields == song
    ensures r.0.music.rows == s.music.rows + [r.1] && r.0.music.nextId == s.music.nextId + 1
    ensures r.0.members == s.members && r.0.scales == s.scales
  {
    var (t, row) := Add(s.music, None, song);
    (s.(music := t), row)
  }

  function UpdateMusic(s: Store, id: int, p: Patch<SongPatch>): (r: (Store, Option<Row<Song>>))
    ensures r.0.members == s.members && r.0.scales == s.scales
  {
    var (t, row) := Update(s.music, id, p, MergeSong);
    (s.(music := t), row)
  }

  function DeleteMusic(s: Store, id: int): (r: (Store, bool))
    ensures r.0.members == s.members && r.0.scales == s.scales
  {
    var (t, deleted) := Delete(s.music, id);
    (s.(music := t), deleted)
  }

  // Scales

  /** getScales: the stored array itself, position by position, so the records in
      insertion order. Every scale
      a lookup by id finds is listed, and every listed scale can be looked up by its id. */
  function GetScales(s: Store): (r: seq<Row<Scale>>)
    ensures forall id :: GetScaleById(s, id).Some? ==> GetScaleById(s, id).value in r
    ensures forall k :: 0 <= k < |r| ==> GetScaleById(s, r[k].id).Some?
    ensures |r| == |s.scales.rows| && forall k :: 0 <= k < |r| ==> r[k] == s.scales.rows[k]
  {
    s.scales.rows
  }

  /** getScaleById: Table.Find over the scales, so the first stored scale with that id,
      or null exactly when none has it. */
  function GetScaleById(s: Store, id: int): (r: Option<Row<Scale>>)
    ensures r.Some? ==> r.value.id == id
  {
    Find(s.scales.rows, id)
  }

  function AddScale(s: Store, scale: Scale): (r: (Store, Row<Scale>))
    ensures r.1.id == s.scales.nextId && r.1.fields == scale
    ensures r.0.scales.rows == s.scales.rows + [r.1] && r.0.scales.nextId == s.scales.nextId + 1
    ensures r.0.members == s.members && r.0.music == s.music
  {
    var (t, row) := Add(s.scales, None, scale);
    (s.(scales := t), row)
  }

  function UpdateScale(s: Store, id: int, p: Patch<ScalePatch>): (r: (Store, Option<Row<Scale>>))
    ensures r.0.members == s.members && r.0.music == s.music
  {
    var (t, row) := Update(s.scales, id, p, MergeScale);
    (s.(scales := t), row)
  }

  function DeleteScale(s: Store, id: int): (r: (Store, bool))
    ensures r.0.members == s.members && r.0.music == s.music
  {
    var (t, deleted) := Delete(s.scales, id);
    (s.(scales := t), deleted)
  }

  // Laws

  /** The merge law of updateMember: every key the update carries takes its new value,
      every other field keeps its old one, and the id changes only when the update
      carries an `id` key. */
  lemma UpdateMemberMergeLaw(s: Store, id: int, p: Patch<MemberPatch>, k: int)
    requires 0 <= k < |s.members.rows| && s.members.rows[k].id == id
    requires forall j :: 0 <= j < k ==> s.members.rows[j].id != id
    ensures var (s', r) := UpdateMember(s, id, p);
      var before := s.members.rows[k].fields;
      && r.Some? && s'.members.rows[k] == r.value
      && |s'.members.rows| == |s.members.rows|
      && r.value.id == (if p.id.Some? then p.id.value else id)
      && (p.fields.name.Some? ==> r.value.fields.name == p.fields.name.value)
      && (p.fields.name.None? ==> r.value.fields.name == before.name)
      && (p.fields.email.Some? ==> r.value.fields.email == p.fields.email.value)
      && (p.fields.email.None? ==> r.value.fields.email == before.email)
      && (p.fields.password.Some? ==> r.value.fields.password == p.fields.password.value)
      && (p.fields.password.None? ==> r.value.fields.password == before.password)
      && (p.fields.voiceType.Some? ==> r.value.fields.voiceType == p.fields.voiceType.value)
      && (p.fields.voiceType.None? ==> r.value.fields.voiceType == before.voiceType)
      && (p.fields.accessLevel.Some? ==> r.value.fields.accessLevel == p.fields.accessLevel.value)
      && (p.fields.accessLevel.None? ==> r.value.fields.accessLevel == before.accessLevel)
  {
    assert FindIndex(s.members.rows, id) == k;
  }

  /** The merge law of updateMusic. */
  lemma UpdateMusicMergeLaw(s: Store, id: int, p: Patch<SongPatch>, k: int)
    requires 0 <= k < |s.music.rows| && s.music.rows[k].id == id
    requires forall j :: 0 <= j < k ==> s.music.rows[j].id != id
    ensures var (s', r) := UpdateMusic(s, id, p);
      var before := s.music.rows[k].fields;
      && r.Some? && s'.music.rows[k] == r.value
      && |s'.music.rows| == |s.music.rows|
      && r.value.id == (if p.id.Some? then p.id.value else id)
      && (p.fields.name.Some? ==> r.value.fields.name == p.fields.name.value)
      && (p.fields.name.None? ==> r.value.fields.name == before.name)
      && (p.fields.key.Some? ==> r.value.fields.key == p.fields.key.value)
      && (p.fields.key.None? ==> r.value.fields.key == before.key)
      && (p.fields.versionLink.Some? ==> r.value.fields.versionLink == p.fields.versionLink.value)
      && (p.fields.versionLink.None? ==> r.value.fields.versionLink == before.versionLink)
      && (p.fields.lyrics.Some? ==> r.value.fields.lyrics == p.fields.lyrics.value)
      && (p.fields.lyrics.None? ==> r.value.fields.lyrics == before.lyrics)
      && (p.fields.soloistId.Some? ==> r.value.fields.soloistId == p.fields.soloistId.value)
      && (p.fields.soloistId.None? ==> r.value.fields.soloistId == before.soloistId)
  {
    assert FindIndex(s.music.rows, id) == k;
  }

  /** The merge law of updateScale: the entry list is replaced wholesale or kept. */
  lemma UpdateScaleMergeLaw(s: Store, id: int, p: Patch<ScalePatch>, k: int)
    requires 0 <= k < |s.scales.rows| && s.scales.rows[k].id == id
    requires forall j :: 0 <= j < k ==> s.scales.rows[j].id != id
    ensures var (s', r) := UpdateScale(s, id, p);
      var before := s.scales.rows[k].fields;
      && r.Some? && s'.scales.rows[k] == r.value
      && |s'.scales.rows| == |s.scales.rows|
      && r.value.id == (if p.id.Some? then p.id.value else id)
      && (p.fields.name.Some? ==> r.value.fields.name == p.fields.name.value)
      && (p.fields.name.None? ==> r.value.fields.name == before.name)
      && (p.fields.date.Some? ==> r.value.fields.date == p.fields.date.value)
      && (p.fields.date.None? ==> r.value.fields.date == before.date)
      && (p.fields.songs.Some? ==> r.value.fields.songs == p.fields.songs.value)
      && (p.fields.songs.None? ==> r.value.fields.songs == before.songs)
  {
    assert FindIndex(s.scales.rows, id) == k;
  }

  /** An update of an id no member has returns null and leaves the store as it was,
      whatever the other collections hold. */
  lemma UpdateMissingMember(s: Store, id: int, p: Patch<MemberPatch>)
    requires GetMemberById(s, id).None?
    ensures UpdateMember(s, id, p) == (s, None)
  {
  }

  /** The same for a song id. */
  lemma UpdateMissingMusic(s: Store, id: int, p: Patch<SongPatch>)
    requires GetMusicById(s, id).None?
    ensures UpdateMusic(s, id, p) == (s, None)
  {
  }

  /** The same for a scale id. */
  lemma UpdateMissingScale(s: Store, id: int, p: Patch<ScalePatch>)
    requires GetScaleById(s, id).None?
    ensures UpdateScale(s, id, p) == (s, None)
  {
  }

  /** Deleting a member does not cascade: a song that named the member as soloist is
      still stored, unchanged, and its soloist reference now resolves to nothing. */
  lemma DeleteMemberDoesNotCascade(s: Store, memberId: int, songId: int)
    requires Valid(s)
    requires GetMusicById(s, songId).Some? && GetMusicById(s, songId).value.fields.soloistId == memberId
    ensures var (s', deleted) := DeleteMember(s, memberId);
      && deleted == GetMemberById(s, memberId).Some?
      && GetMusicById(s', songId) == GetMusicById(s, songId)
      && GetMemberById(s', GetMusicById(s', songId).value.fields.soloistId).None?
  {
    DeleteRemovesExactly(s.members, memberId);
  }

  /** The store-level operations keep every collection well formed, provided an update
      carries no `id` key (the routes never send one). */
  lemma OperationsKeepValid(s: Store, id: int, m: Member, g: Song, c: Scale,
                            mp: MemberPatch, sp: SongPatch, cp: ScalePatch)
    requires Valid(s)
    ensures Valid(AddMember(s, m).0) && Valid(AddMusic(s, g).0) && Valid(AddScale(s, c).0)
    ensures Valid(UpdateMember(s, id, Patch(None, mp)).0)
    ensures Valid(UpdateMusic(s, id, Patch(None, sp)).0)
    ensures Valid(UpdateScale(s, id, Patch(None, cp)).0)
    ensures Valid(DeleteMember(s, id).0) && Valid(DeleteMusic(s, id).0) && Valid(DeleteScale(s, id).0)
  {
    AddIssuesFreshId(s.members, None, m);
    AddIssuesFreshId(s.music, None, g);
    AddIssuesFreshId(s.scales, None, c);
    UpdateKeepsIds(s.members, id, Patch(None, mp), MergeMember);
    UpdateKeepsIds(s.music, id, Patch(None, sp), MergeSong);
    UpdateKeepsIds(s.scales, id, Patch(None, cp), MergeScale);
    DeleteRemovesExactly(s.members, id);
    DeleteRemovesExactly(s.music, id);
    DeleteRemovesExactly(s.scales, id);
  }
}
