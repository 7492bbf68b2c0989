/** src/routes/scales.js: the rotation schedules. Writes check every entry's song and
    soloist in order before anything is stored; reads enrich each entry with song
    and soloist snapshots, null when a reference dangles. The update path enriches
    without null checks after it has committed, so it can store and then fail. */
module ScaleRoutes {
  import opened Wrappers
  import opened Table
  import opened Database
  import opened Request
  import opened Http
  import opened Views

  /** One element of the request's `songs` array. */
  datatype EntryInput = EntryInput(musicId: Option<int>, soloistId: Option<int>)

  /** The request's `songs` value: missing or any falsy value, a truthy value that is
      not an array, or an array (always truthy, even when empty). */
  datatype SongsInput = NoSongs | NotAList | SongList(entries: seq<EntryInput>)

  /** The JSON body of POST and PUT /scales. */
  datatype ScaleBody = ScaleBody(name: Option<string>, date: Option<string>, songs: SongsInput)

  /** Both ids of an entry are truthy. */
  predicate HasIds(e: EntryInput) {
    GivenId(e.musicId) && GivenId(e.soloistId)
  }

  function AssignmentOf(e: EntryInput): Assignment
    requires HasIds(e)
  {
    Assignment(e.musicId.value, e.soloistId.value)
  }

  /** The entry passes the checks of the loop: ids present, song found, soloist found. */
  predicate Acceptable(s: Store, e: EntryInput) {
    HasIds(e) && Resolves(s, AssignmentOf(e))
  }

  /** Why the loop refuses one entry. The song is looked up before the soloist, so an
      entry whose song and soloist both dangle is reported by its song id. */
  function EntryError(s: Store, e: EntryInput): (r: Option<Reason>)
    ensures r.None? <==> Acceptable(s, e)
    ensures r == Some(EntryMissingIds) <==> !HasIds(e)
    ensures r.Some? && r.value.MusicRefNotFound? <==> HasIds(e) && GetMusicById(s, e.musicId.value).None?
    ensures r.Some? && r.value.MusicRefNotFound? ==> r.value.musicId == e.musicId.value
    ensures r.Some? && r.value.SoloistRefNotFound? <==>
      HasIds(e) && GetMusicById(s, e.musicId.value).Some? && GetMemberById(s, e.soloistId.value).None?
    ensures r.Some? && r.value.SoloistRefNotFound? ==> r.value.soloistId == e.soloistId.value
  {
    if !HasIds(e) then Some(EntryMissingIds)
    else if GetMusicById(s, e.musicId.value).None? then Some(MusicRefNotFound(e.musicId.value))
    else if GetMemberById(s, e.soloistId.value).None? then Some(SoloistRefNotFound(e.soloistId.value))
    else None
  }

  /** The position at which the `for (const song of songs)` loop stops: the first
      entry that is not acceptable, or none when every entry is. */
  function FirstBadEntry(s: Store, es: seq<EntryInput>): (r: Option<nat>)
    ensures r.None? <==> forall k :: 0 <= k < |es| ==> Acceptable(s, es[k])
    ensures r.Some? ==> r.value < |es| && !Acceptable(s, es[r.value])
    ensures r.Some? ==> forall k :: 0 <= k < r.value ==> Acceptable(s, es[k])
    decreases |es|
  {
    if |es| == 0 then None
    else if !Acceptable(s, es[0]) then Some(0)
    else
      assert forall k :: 1 <= k < |es| ==> es[1..][k - 1] == es[k];
      match FirstBadEntry(s, es[1..])
      case None => None
      case Some(k) => Some(k + 1)
  }

  /** The error the loop answers with, if any: none exactly when every entry is
      acceptable, otherwise the error of the first entry that is not. */
  function CheckEntries(s: Store, es: seq<EntryInput>): (r: Option<Reason>)
    ensures r.None? <==> forall k :: 0 <= k < |es| ==> Acceptable(s, es[k])
    ensures r.Some? ==> exists k :: (0 <= k < |es| && r == EntryError(s, es[k]) &&
      forall j :: 0 <= j < k ==> Acceptable(s, es[j]))
  {
    match FirstBadEntry(s, es)
    case None => None
    case Some(k) => EntryError(s, es[k])
  }

  /** The stored entry list: the request's entries, in the request's order. */
  function Assignments(s: Store, es: seq<EntryInput>): (r: seq<Assignment>)
    requires FirstBadEntry(s, es).None?
    ensures |r| == |es|
    ensures forall k :: 0 <= k < |es| ==> r[k] == AssignmentOf(es[k]) && Resolves(s, r[k])
  {
    seq(|es|, k requires 0 <= k < |es| => AssignmentOf(es[k]))
  }

  /** GET /scales: every scale in store order, entries enriched null-safely. */
  function List(s: Store): (r: seq<ScaleView>)
    ensures |r| == |s.scales.rows|
    ensures forall k :: 0 <= k < |r| ==> r[k] == ViewScale(s, s.scales.rows[k])
  {
    var all := GetScales(s);
    seq(|all|, k requires 0 <= k < |all| => ViewScale(s, all[k]))
  }

  /** GET /scales/:id. */
  function Get(s: Store, id: int): (r: Reply<ScaleView>)
    ensures r.Ok? || r.NotFound?
    ensures r.NotFound? <==> GetScaleById(s, id).None?
    ensures r.Ok? ==> r.body == ViewScale(s, GetScaleById(s, id).value)
  {
    match GetScaleById(s, id)
    case None => NotFound
    case Some(c) => Ok(ViewScale(s, c))
  }

  /** The first guard of POST: name and date truthy, songs a non-empty array. */
  predicate CreateShapeOk(b: ScaleBody) {
    Given(b.name) && Given(b.date) && b.songs.SongList? && |b.songs.entries| > 0
  }

  /** POST /scales. Nothing is added unless the body has the right shape and every
      entry is acceptable; then exactly one scale is added with the given name, date
      and entries in order, and the reply's enrichment cannot fault. */
  function Create(s: Store, b: ScaleBody): (r: (Reply<ScaleView>, Store))
    ensures r.0.Created? || r.0.BadRequest?
    ensures !r.0.Created? ==> r.1 == s
    ensures r.0 == BadRequest(MissingFields) <==> !CreateShapeOk(b)
    ensures CreateShapeOk(b) && CheckEntries(s, b.songs.entries).Some? ==>
      r.0 == BadRequest(CheckEntries(s, b.songs.entries).value)
    ensures r.0.Created? <==> CreateShapeOk(b) && CheckEntries(s, b.songs.entries).None?
    ensures r.0.Created? ==> |r.1.scales.rows| == |s.scales.rows| + 1
    ensures r.0.Created? ==>
      var es := b.songs.entries;
      var row := r.1.scales.rows[|s.scales.rows|];
      && r.1.scales.rows == s.scales.rows + [row]
      && r.1.scales.nextId == s.scales.nextId + 1
      && r.1.members == s.members && r.1.music == s.music
      && row.id == s.scales.nextId
      && row.fields.name == b.name.value && row.fields.date == b.date.value
      && |row.fields.songs| == |es|
      && (forall k :: 0 <= k < |es| ==> row.fields.songs[k] == AssignmentOf(es[k]))
      && r.0.body == ViewScale(r.1, row)
  {
    if !CreateShapeOk(b) then (BadRequest(MissingFields), s)
    else match FirstBadEntry(s, b.songs.entries)
      case Some(k) => (BadRequest(EntryError(s, b.songs.entries[k]).value), s)
      case None =>
        var (s', row) := AddScale(s, Scale(b.name.value, b.date.value, Assignments(s, b.songs.entries)));
        match StrictViewScale(s', row)
        case None => (ServerError, s')  // unreachable: every entry was just resolved
        case Some(v) => (Created(v), s')
  }

  /** What PUT does with the entry list: keep it, replace it, or refuse the request. */
  datatype SongsChange = KeepSongs | ReplaceSongs(songs: seq<Assignment>) | RefuseSongs(reason: Reason)

  /** The `songs` key of PUT's `updateData`, or the refusal the songs branch answers. */
  function SongsUpdate(s: Store, songs: SongsInput): (r: SongsChange)
    ensures songs.NoSongs? ==> r == KeepSongs
    ensures songs.NotAList? || songs == SongList([]) ==> r == RefuseSongs(InvalidSongList)
    ensures songs.SongList? && |songs.entries| > 0 ==>
      (r.RefuseSongs? <==> CheckEntries(s, songs.entries).Some?)
      && (r.RefuseSongs? ==> r.reason == CheckEntries(s, songs.entries).value)
      && (r.ReplaceSongs? ==>
            && |r.songs| == |songs.entries|
            && forall k :: 0 <= k < |r.songs| ==> r.songs[k] == AssignmentOf(songs.entries[k]) && Resolves(s, r.songs[k]))
    ensures songs.SongList? && |songs.entries| > 0 && CheckEntries(s, songs.entries).None? ==> r.ReplaceSongs?
  {
    match songs
    case NoSongs => KeepSongs
    case NotAList => RefuseSongs(InvalidSongList)
    case SongList(es) =>
      if |es| == 0 then RefuseSongs(InvalidSongList)
      else match FirstBadEntry(s, es)
        case Some(k) => RefuseSongs(EntryError(s, es[k]).value)
        case None => ReplaceSongs(Assignments(s, es))
  }

  /** The `updateData` PUT builds once validation has passed: a name or date key
      exactly when the body's value is truthy, the new entry list when there is one,
      and never an `id`. */
  function UpdateData(b: ScaleBody, songs: Option<seq<Assignment>>): (p: ScalePatch)
    ensures p.name.Some? <==> Given(b.name)
    ensures p.name.Some? ==> p.name.value == b.name.value
    ensures p.date.Some? <==> Given(b.date)
    ensures p.date.Some? ==> p.date.value == b.date.value
    ensures p.songs == songs
  {
    ScalePatch(IfGiven(b.name), IfGiven(b.date), songs)
  }

  /** The store PUT commits when validation passes: members and songs stay, a missing
      scale leaves the store as it was, and an existing one is found under its id with
      the truthy name and date, and the kept or the new entries. */
  function Committed(s: Store, id: int, b: ScaleBody): (s': Store)
    requires !SongsUpdate(s, b.songs).RefuseSongs?
    ensures s'.members == s.members && s'.music == s.music
    ensures s'.scales.nextId == s.scales.nextId && |s'.scales.rows| == |s.scales.rows|
    ensures forall other :: other != id ==> GetScaleById(s', other) == GetScaleById(s, other)
    ensures GetScaleById(s, id).None? ==> s' == s
    ensures GetScaleById(s, id).Some? ==>
      var before := GetScaleById(s, id).value;
      var change := SongsUpdate(s, b.songs);
      && GetScaleById(s', id).Some?
      && GetScaleById(s', id).value.id == id
      && GetScaleById(s', id).value.fields.name == (if Given(b.name) then b.name.value else before.fields.name)
      && GetScaleById(s', id).value.fields.date == (if Given(b.date) then b.date.value else before.fields.date)
      && GetScaleById(s', id).value.fields.songs == (if change.KeepSongs? then before.fields.songs else change.songs)
  {
    var songs := match SongsUpdate(s, b.songs) case ReplaceSongs(es) => Some(es) case _ => None;
    var p := Patch(None, UpdateData(b, songs));
    UpdateKeepsLookups(s.scales, id, p, MergeScale);
    UpdateScale(s, id, p).0
  }

  /** Some entry the scale already stores no longer resolves. */
  predicate Dangles(s: Store, c: Row<Scale>) {
    exists k :: 0 <= k < |c.fields.songs| && !Resolves(s, c.fields.songs[k])
  }

  /** After the commit, the strict enrichment of the stored scale faults exactly when
      the entries were kept and one of them dangles. */
  lemma CommitFaultsOnDangling(s: Store, id: int, b: ScaleBody)
    requires GetScaleById(s, id).Some? && !SongsUpdate(s, b.songs).RefuseSongs?
    ensures GetScaleById(Committed(s, id, b), id).Some?
    ensures var s' := Committed(s, id, b);
      StrictViewScale(s', GetScaleById(s', id).value).None? <==>
        SongsUpdate(s, b.songs).KeepSongs? && Dangles(s, GetScaleById(s, id).value)
  {
  }

  /** PUT /scales/:id. An unknown id or an invalid songs value is refused with no change.
      Otherwise the merged scale is committed, and the reply's enrichment then faults
      (500, with the store already changed) exactly when songs were not replaced and
      one of the kept entries dangles. */
  function Update(s: Store, id: int, b: ScaleBody): (r: (Reply<ScaleView>, Store))
    ensures r.0.NotFound? <==> GetScaleById(s, id).None?
    ensures r.0.NotFound? || r.0.BadRequest? ==> r.1 == s
    ensures r.0.BadRequest? <==> GetScaleById(s, id).Some? && SongsUpdate(s, b.songs).RefuseSongs?
    ensures r.0.BadRequest? ==> r.0.reason == SongsUpdate(s, b.songs).reason
    ensures r.0.Ok? || r.0.ServerError? ==> r.1 == Committed(s, id, b)
    ensures r.0.ServerError? <==>
      GetScaleById(s, id).Some? && b.songs.NoSongs? && Dangles(s, GetScaleById(s, id).value)
    ensures r.0.Ok? ==> r.0.body == ViewScale(r.1, GetScaleById(r.1, id).value)
    ensures !r.0.Created?
  {
    match GetScaleById(s, id)
    case None => (NotFound, s)
    case Some(existing) =>
      var change := SongsUpdate(s, b.songs);
      if change.RefuseSongs? then (BadRequest(change.reason), s)
      else
        CommitFaultsOnDangling(s, id, b);
        var s' := Committed(s, id, b);
        match GetScaleById(s', id)
        case None => (ServerError, s')  // unreachable: the scale was just found
        case Some(c) =>
          match StrictViewScale(s', c)
          case None => (ServerError, s')
          case Some(v) => (Ok(v), s')
  }

  /** DELETE /scales/:id. */
  function Delete(s: Store, id: int): (r: (Reply<()>, Store))
    ensures r.0.Ok? || r.0.NotFound?
    ensures r.0.NotFound? <==> GetScaleById(s, id).None?
    ensures r.0.NotFound? ==> r.1 == s
    ensures r.0.Ok? ==> r.1 == DeleteScale(s, id).0
    ensures r.1.members == s.members && r.1.music == s.music
  {
    match GetScaleById(s, id)
    case None => (NotFound, s)
    case Some(_) =>
      var (s', deleted) := DeleteScale(s, id);
      if deleted then (Ok(()), s') else (ServerError, s)
  }

  // Properties

  /** The first entry that fails decides the answer, and nothing is added: earlier
      entries all pass, so the error is that entry's, song before soloist. */
  lemma CreateReportsFirstFailure(s: Store, b: ScaleBody, k: int)
    requires CreateShapeOk(b) && 0 <= k < |b.songs.entries|
    requires forall j :: 0 <= j < k ==> Acceptable(s, b.songs.entries[j])
    requires !Acceptable(s, b.songs.entries[k])
    ensures Create(s, b) == (BadRequest(EntryError(s, b.songs.entries[k]).value), s)
  {
    assert FirstBadEntry(s, b.songs.entries) == Some(k);
  }

  /** PUT runs the very checks POST runs on a non-empty entry list: where POST refuses
      an entry, PUT on an existing scale refuses it with the same reason. */
  lemma UpdateChecksLikeCreate(s: Store, id: int, b: ScaleBody)
    requires GetScaleById(s, id).Some? && CreateShapeOk(b)
    requires Create(s, b).0.BadRequest?
    ensures Update(s, id, b) == Create(s, b)
  {
  }

  /** A created scale keeps the store well formed, every one of its references
      resolves, and GET /scales/:id returns what POST answered. */
  lemma CreateThenGet(s: Store, b: ScaleBody)
    requires Valid(s)
    ensures var (reply, s') := Create(s, b);
      && Valid(s')
      && (reply.Created? ==> Get(s', reply.body.id) == Ok(reply.body))
      && (reply.Created? ==> forall k :: 0 <= k < |reply.body.songs| ==>
            reply.body.songs[k].music.Some? && reply.body.songs[k].soloist.Some?)
  {
    var (reply, s') := Create(s, b);
    if reply.Created? {
      var es := b.songs.entries;
      AddIssuesFreshId(s.scales, None, Scale(b.name.value, b.date.value, Assignments(s, es)));
      var row := s'.scales.rows[|s.scales.rows|];
      assert s'.members == s.members && s'.music == s.music;
      assert forall k :: 0 <= k < |row.fields.songs| ==> Resolves(s', row.fields.songs[k]);
      assert StrictViewScale(s', row) == Some(reply.body);
      StrictViewHasSnapshots(s', row);
      assert GetScaleById(s', row.id) == Some(row);
    }
  }

  /** Every PUT outcome keeps the store well formed; on success GET /scales/:id
      returns what PUT answered. */
  lemma UpdateThenGet(s: Store, id: int, b: ScaleBody)
    requires Valid(s)
    ensures var (reply, s') := Update(s, id, b);
      && Valid(s')
      && (reply.Ok? ==> Get(s', id) == Ok(reply.body))
  {
    var (reply, s') := Update(s, id, b);
    if reply.Ok? || reply.ServerError? {
      var change := SongsUpdate(s, b.songs);
      var songs := match change case ReplaceSongs(es) => Some(es) case _ => None;
      UpdateKeepsIds(s.scales, id, Patch(None, UpdateData(b, songs)), MergeScale);
    }
  }

  /** PUT can store and then fail: when it renames a scale whose kept entries dangle,
      it answers 500 and yet the store holds the new name. */
  lemma UpdateFaultAfterCommit(s: Store, id: int, b: ScaleBody)
    requires GetScaleById(s, id).Some? && b.songs.NoSongs? && Dangles(s, GetScaleById(s, id).value)
    requires Given(b.name)
    ensures Update(s, id, b).0 == ServerError
    ensures GetScaleById(Update(s, id, b).1, id).Some?
    ensures GetScaleById(Update(s, id, b).1, id).value.fields.name == b.name.value
  {
  }

  /** Deleting a song leaves the scales that use it in place; their reads then show a
      null song snapshot for that entry instead of failing. */
  lemma DeletedSongReadsAsNull(s: Store, songId: int, k: int, j: int)
    requires Valid(s)
    requires 0 <= k < |s.scales.rows| && 0 <= j < |s.scales.rows[k].fields.songs|
    requires s.scales.rows[k].fields.songs[j].musicId == songId
    ensures var s' := DeleteMusic(s, songId).0;
      && s'.scales == s.scales
      && List(s')[k].songs[j].music.None?
      && List(s')[k].songs[j].musicId == songId
  {
    DeleteRemovesExactly(s.music, songId);
  }
}
