/** src/routes/music.js: the song repertoire. Writes check that the soloist exists at
    the moment it is set; reads enrich each song with its soloist, null when dangling. */
module MusicRoutes {
  import opened Wrappers
  import opened Table
  import opened Database
  import opened Request
  import opened Http
  import opened Views

  /** The JSON body of POST and PUT /music. */
  datatype SongBody = SongBody(
    name: Option<string>, key: Option<string>, versionLink: Option<string>,
    lyrics: Option<string>, soloistId: Option<int>)

  /** The five fields POST requires, all truthy. */
  predicate AllGiven(b: SongBody) {
    Given(b.name) && Given(b.key) && Given(b.versionLink) && Given(b.lyrics) && GivenId(b.soloistId)
  }

  /** GET /music: every song in store order, each with its soloist snapshot or null. */
  function List(s: Store): (r: seq<SongView>)
    ensures |r| == |s.music.rows|
    ensures forall k :: 0 <= k < |r| ==> r[k] == ViewSong(s, s.music.rows[k])
  {
    var all := GetMusic(s);
    seq(|all|, k requires 0 <= k < |all| => ViewSong(s, all[k]))
  }

  /** GET /music/:id. */
  function Get(s: Store, id: int): (r: Reply<SongView>)
    ensures r.Ok? || r.NotFound?
    ensures r.NotFound? <==> GetMusicById(s, id).None?
    ensures r.Ok? ==> r.body == ViewSong(s, GetMusicById(s, id).value)
  {
    match GetMusicById(s, id)
    case None => NotFound
    case Some(g) => Ok(ViewSong(s, g))
  }

  function NewSong(b: SongBody): Song
    requires AllGiven(b)
  {
    Song(b.name.value, b.key.value, b.versionLink.value, b.lyrics.value, b.soloistId.value)
  }

  /** POST /music. Refused with nothing added unless all five fields are truthy and the
      soloist exists; otherwise exactly one song is added and returned with the
      snapshot of the soloist that was found. */
  function Create(s: Store, b: SongBody): (r: (Reply<SongView>, Store))
    ensures r.0.Created? || r.0.BadRequest?
    ensures !r.0.Created? ==> r.1 == s
    ensures r.0 == BadRequest(MissingFields) <==> !AllGiven(b)
    ensures r.0 == BadRequest(SoloistNotFound) <==> AllGiven(b) && GetMemberById(s, b.soloistId.value).None?
    ensures r.0.Created? <==> AllGiven(b) && GetMemberById(s, b.soloistId.value).Some?
    ensures r.0.Created? ==>
      var row := Row(s.music.nextId, Song(b.name.value, b.key.value, b.versionLink.value,
                                          b.lyrics.value, b.soloistId.value));
      && r.1.music.rows == s.music.rows + [row]
      && r.1.music.nextId == s.music.nextId + 1
      && r.1.members == s.members && r.1.scales == s.scales
      && r.0.body == ViewSong(r.1, row)
      && r.0.body.soloist.Some?
  {
    if !AllGiven(b) then (BadRequest(MissingFields), s)
    else match GetMemberById(s, b.soloistId.value)
      case None => (BadRequest(SoloistNotFound), s)
      case Some(soloist) =>
        var (s', row) := AddMusic(s, NewSong(b));
        var snapshot := SoloistSnapshot(soloist.id, soloist.fields.name, soloist.fields.voiceType);
        (Created(SongView(row.id, row.fields.name, row.fields.key, row.fields.versionLink,
                          row.fields.lyrics, row.fields.soloistId, Some(snapshot))), s')
  }

  /** The `updateData` PUT builds: only truthy fields, never an `id`. */
  function UpdateData(b: SongBody): (p: SongPatch)
    ensures p.name == IfGiven(b.name) && p.key == IfGiven(b.key)
    ensures p.versionLink == IfGiven(b.versionLink) && p.lyrics == IfGiven(b.lyrics)
    ensures p.soloistId == IfGivenId(b.soloistId)
  {
    SongPatch(IfGiven(b.name), IfGiven(b.key), IfGiven(b.versionLink), IfGiven(b.lyrics), IfGivenId(b.soloistId))
  }

  /** PUT /music/:id. The song must exist; a truthy new soloist must exist too, checked
      before anything is written; the reply enriches the merged song null-safely. */
  function Update(s: Store, id: int, b: SongBody): (r: (Reply<SongView>, Store))
    ensures r.0.Ok? || r.0.BadRequest? || r.0.NotFound?
    ensures !r.0.Ok? ==> r.1 == s
    ensures r.0.NotFound? <==> GetMusicById(s, id).None?
    ensures r.0 == BadRequest(SoloistNotFound) <==>
      GetMusicById(s, id).Some? && GivenId(b.soloistId) && GetMemberById(s, b.soloistId.value).None?
    ensures r.0.Ok? <==>
      GetMusicById(s, id).Some? && !(GivenId(b.soloistId) && GetMemberById(s, b.soloistId.value).None?)
    ensures r.0.Ok? ==>
      var (s', updated) := UpdateMusic(s, id, Patch(None, UpdateData(b)));
      && r.1 == s'
      && updated.Some?
      && r.0.body == ViewSong(s', updated.value)
  {
    match GetMusicById(s, id)
    case None => (NotFound, s)
    case Some(_) =>
      if GivenId(b.soloistId) && GetMemberById(s, b.soloistId.value).None? then (BadRequest(SoloistNotFound), s)
      else
        var (s', updated) := UpdateMusic(s, id, Patch(None, UpdateData(b)));
        match updated
        case None => (ServerError, s)  // unreachable: the song was just found
        case Some(g) => (Ok(ViewSong(s', g)), s')
  }

  /** DELETE /music/:id. Scales that name the song keep their entries. */
  function Delete(s: Store, id: int): (r: (Reply<()>, Store))
    ensures r.0.Ok? || r.0.NotFound?
    ensures r.0.NotFound? <==> GetMusicById(s, id).None?
    ensures r.0.NotFound? ==> r.1 == s
    ensures r.0.Ok? ==> r.1 == DeleteMusic(s, id).0
    ensures r.1.members == s.members && r.1.scales == s.scales
  {
    match GetMusicById(s, id)
    case None => (NotFound, s)
    case Some(_) =>
      var (s', deleted) := DeleteMusic(s, id);
      if deleted then (Ok(()), s') else (ServerError, s)
  }

  // Properties

  /** A created song is stored well formed, its soloist resolves, and GET /music/:id
      returns exactly what POST answered. */
  lemma CreateThenGet(s: Store, b: SongBody)
    requires Valid(s)
    ensures var (reply, s') := Create(s, b);
      && Valid(s')
      && (reply.Created? ==> Get(s', reply.body.id) == Ok(reply.body))
  {
    var (reply, s') := Create(s, b);
    if reply.Created? {
      AddIssuesFreshId(s.music, None, NewSong(b));
    }
  }

  /** An update keeps the store well formed and GET /music/:id then returns the reply's
      song; when the update named a soloist, that soloist resolves. */
  lemma UpdateThenGet(s: Store, id: int, b: SongBody)
    requires Valid(s)
    ensures var (reply, s') := Update(s, id, b);
      && Valid(s')
      && (reply.Ok? ==> Get(s', id) == Ok(reply.body))
      && (reply.Ok? && GivenId(b.soloistId) ==> reply.body.soloistId == b.soloistId.value && reply.body.soloist.Some?)
  {
    UpdateKeepsIds(s.music, id, Patch(None, UpdateData(b)), MergeSong);
  }

  /** Only the truthy fields of the body change the song: each given field takes the
      new value, every other keeps the old one, and the id stays. */
  lemma UpdateSetsOnlyGivenFields(s: Store, id: int, b: SongBody)
    requires Valid(s)
    requires Update(s, id, b).0.Ok?
    ensures var before := GetMusicById(s, id).value;
      var after := GetMusicById(Update(s, id, b).1, id).value;
      && after.id == id
      && after.fields.name == (if Given(b.name) then b.name.value else before.fields.name)
      && after.fields.key == (if Given(b.key) then b.key.value else before.fields.key)
      && after.fields.versionLink == (if Given(b.versionLink) then b.versionLink.value else before.fields.versionLink)
      && after.fields.lyrics == (if Given(b.lyrics) then b.lyrics.value else before.fields.lyrics)
      && after.fields.soloistId == (if GivenId(b.soloistId) then b.soloistId.value else before.fields.soloistId)
  {
    UpdateKeepsIds(s.music, id, Patch(None, UpdateData(b)), MergeSong);
    var i := FindIndex(s.music.rows, id);
    FindStored(s.music, i);
  }

  /** Reads never fault on a dangling soloist: the song is still listed, with null. */
  lemma DanglingSoloistReadsAsNull(s: Store, k: int)
    requires 0 <= k < |s.music.rows|
    requires GetMemberById(s, s.music.rows[k].fields.soloistId).None?
    ensures List(s)[k].soloist.None? && List(s)[k].soloistId == s.music.rows[k].fields.soloistId
  {
  }
}
