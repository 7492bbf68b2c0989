/** What leaves the store toward a client: members without their password hash, and
    songs and scales enriched with snapshots of the records they refer to
    (src/routes/members.js, src/routes/music.js, src/routes/scales.js). */
module Views {
  import opened Wrappers
  import opened Table
  import opened Database

  /** A member as every response shows it: all stored fields except `password`. */
  datatype PublicMember = PublicMember(id: int, name: string, email: string, voiceType: string, accessLevel: string)

  /** The soloist snapshot `{ id, name, voiceType }`. */
  datatype SoloistSnapshot = SoloistSnapshot(id: int, name: string, voiceType: string)

  /** The song snapshot `{ id, name, key, versionLink }`. */
  datatype SongSnapshot = SongSnapshot(id: int, name: string, key: string, versionLink: string)

  /** A stored song with its soloist snapshot, null when the reference dangles. */
  datatype SongView = SongView(
    id: int, name: string, key: string, versionLink: string, lyrics: string,
    soloistId: int, soloist: Option<SoloistSnapshot>)

  /** One scale entry with the snapshots of its song and soloist. */
  datatype EntryView = EntryView(musicId: int, soloistId: int, music: Option<SongSnapshot>, soloist: Option<SoloistSnapshot>)

  datatype ScaleView = ScaleView(id: int, name: string, date: string, songs: seq<EntryView>)

  /** `const { password, ...rest } = member`. */
  function Strip(m: Row<Member>): (r: PublicMember)
    ensures r.id == m.id && r.name == m.fields.name && r.email == m.fields.email
    ensures r.voiceType == m.fields.voiceType && r.accessLevel == m.fields.accessLevel
  {
    PublicMember(m.id, m.fields.name, m.fields.email, m.fields.voiceType, m.fields.accessLevel)
  }

  /** The soloist snapshot of member `id`, or null when no member has that id. */
  function SoloistOf(s: Store, id: int): (r: Option<SoloistSnapshot>)
    ensures r.None? <==> GetMemberById(s, id).None?
    ensures r.Some? ==> var m := GetMemberById(s, id).value;
      r.value == SoloistSnapshot(id, m.fields.name, m.fields.voiceType)
  {
    match GetMemberById(s, id)
    case None => None
    case Some(m) => Some(SoloistSnapshot(m.id, m.fields.name, m.fields.voiceType))
  }

  /** The song snapshot of song `id`, or null when no song has that id. */
  function SongOf(s: Store, id: int): (r: Option<SongSnapshot>)
    ensures r.None? <==> GetMusicById(s, id).None?
    ensures r.Some? ==> var g := GetMusicById(s, id).value;
      r.value == SongSnapshot(id, g.fields.name, g.fields.key, g.fields.versionLink)
  {
    match GetMusicById(s, id)
    case None => None
    case Some(g) => Some(SongSnapshot(g.id, g.fields.name, g.fields.key, g.fields.versionLink))
  }

  /** `{ ...song, soloist: soloist ? {...} : null }`: the song's own fields as stored,
      and the snapshot of the member it names, null exactly when that member is gone. */
  function ViewSong(s: Store, g: Row<Song>): (r: SongView)
    ensures r.id == g.id && r.name == g.fields.name && r.key == g.fields.key
    ensures r.versionLink == g.fields.versionLink && r.lyrics == g.fields.lyrics
    ensures r.soloistId == g.fields.soloistId
    ensures r.soloist.None? <==> GetMemberById(s, g.fields.soloistId).None?
    ensures r.soloist.Some? ==> var m := GetMemberById(s, g.fields.soloistId).value;
      r.soloist.value == SoloistSnapshot(m.id, m.fields.name, m.fields.voiceType)
  {
    SongView(g.id, g.fields.name, g.fields.key, g.fields.versionLink, g.fields.lyrics,
             g.fields.soloistId, SoloistOf(s, g.fields.soloistId))
  }

  /** One entry of a read: both ids as stored, with the song snapshot null exactly
      when the song is gone and the soloist snapshot null exactly when the member is. */
  function ViewEntry(s: Store, a: Assignment): (r: EntryView)
    ensures r.musicId == a.musicId && r.soloistId == a.soloistId
    ensures r.music.None? <==> GetMusicById(s, a.musicId).None?
    ensures r.music.Some? ==> var g := GetMusicById(s, a.musicId).value;
      r.music.value == SongSnapshot(g.id, g.fields.name, g.fields.key, g.fields.versionLink)
    ensures r.soloist.None? <==> GetMemberById(s, a.soloistId).None?
    ensures r.soloist.Some? ==> var m := GetMemberById(s, a.soloistId).value;
      r.soloist.value == SoloistSnapshot(m.id, m.fields.name, m.fields.voiceType)
  {
    EntryView(a.musicId, a.soloistId, SongOf(s, a.musicId), SoloistOf(s, a.soloistId))
  }

  /** The entry enrichment of GET /scales and GET /scales/:id, null-safe per entry. */
  function ViewScale(s: Store, c: Row<Scale>): (r: ScaleView)
    ensures r.id == c.id && r.name == c.fields.name && r.date == c.fields.date
    ensures |r.songs| == |c.fields.songs|
    ensures forall k :: 0 <= k < |r.songs| ==> r.songs[k] == ViewEntry(s, c.fields.songs[k])
  {
    ScaleView(c.id, c.fields.name, c.fields.date, seq(|c.fields.songs|, k requires 0 <= k < |c.fields.songs| => ViewEntry(s, c.fields.songs[k])))
  }

  /** Both references of an entry resolve in `s`. */
  predicate Resolves(s: Store, a: Assignment) {
    GetMusicById(s, a.musicId).Some? && GetMemberById(s, a.soloistId).Some?
  }

  /** One entry of the enrichment of POST and PUT /scales: `music.id` and `soloist.id` are
      read without a null check, so it throws (None here) when either reference dangles,
      and otherwise agrees with the null-safe read. */
  function StrictEntry(s: Store, a: Assignment): (r: Option<EntryView>)
    ensures r.Some? <==> Resolves(s, a)
    ensures r.Some? ==> r.value == ViewEntry(s, a)
  {
    match (GetMusicById(s, a.musicId), GetMemberById(s, a.soloistId))
    case (Some(g), Some(m)) =>
      Some(EntryView(a.musicId, a.soloistId,
                     Some(SongSnapshot(g.id, g.fields.name, g.fields.key, g.fields.versionLink)),
                     Some(SoloistSnapshot(m.id, m.fields.name, m.fields.voiceType))))
    case _ => None
  }

  /** `songs.map(...)` with that per-entry enrichment: it fails when any entry throws,
      and otherwise holds each entry's enrichment in order. */
  function StrictEntries(s: Store, es: seq<Assignment>): (r: Option<seq<EntryView>>)
    ensures r.Some? <==> forall k :: 0 <= k < |es| ==> StrictEntry(s, es[k]).Some?
    ensures r.Some? ==> |r.value| == |es| && forall k :: 0 <= k < |es| ==> StrictEntry(s, es[k]) == Some(r.value[k])
    decreases |es|
  {
    if |es| == 0 then Some([])
    else
      var head := StrictEntry(s, es[0]);
      var rest := StrictEntries(s, es[1..]);
      assert forall k :: 1 <= k < |es| ==> es[1..][k - 1] == es[k];
      if head.Some? && rest.Some? then Some([head.value] + rest.value) else None
  }

  /** The enrichment of POST and PUT /scales, `{ ...scale, songs: songsWithDetails }`: it
      throws as soon as one entry dangles, and otherwise equals the null-safe view. */
  function StrictViewScale(s: Store, c: Row<Scale>): (r: Option<ScaleView>)
    ensures r.Some? <==> forall k :: 0 <= k < |c.fields.songs| ==> Resolves(s, c.fields.songs[k])
    ensures r.Some? ==> r.value == ViewScale(s, c)
  {
    match StrictEntries(s, c.fields.songs)
    case None => None
    case Some(vs) => Some(ScaleView(c.id, c.fields.name, c.fields.date, vs))
  }

  /** On a fully resolved scale every entry carries both snapshots. */
  lemma StrictViewHasSnapshots(s: Store, c: Row<Scale>)
    requires StrictViewScale(s, c).Some?
    ensures forall k :: 0 <= k < |c.fields.songs| ==>
      StrictViewScale(s, c).value.songs[k].music.Some? && StrictViewScale(s, c).value.songs[k].soloist.Some?
  {
  }
}
