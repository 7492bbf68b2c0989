/** End-to-end runs over the seeded store: a scale's life cycle, and logging in as
    the seeded administrator and as a seeded common member. */
module Scenario {
  import opened Wrappers
  import opened Table
  import opened Database
  import opened Http
  import opened AuthMiddleware
  import opened AuthRoutes
  import Seed
  import ScaleRoutes
  import MemberRoutes

  /** The store the server starts from: the fresh store, seeded. */
  function Seeded(hash: string -> string): (s: Store)
    ensures MemberRoutes.MembersConsistent(s)
    ensures |s.members.rows| == 5 && |s.music.rows| == 5 && s.scales.rows == []
    ensures forall id :: 1 <= id <= 5 ==> GetMemberById(s, id).Some? && GetMusicById(s, id).Some?
    ensures forall k :: 0 <= k < 5 ==>
      s.members.rows[k] == Row(k + 1, Seed.SeedMembers(hash(Seed.SeedPassword))[k])
  {
    var r := Seed.SeedDatabase(ResetDatabase(), hash);
    Seed.SeedKeepsValid(ResetDatabase(), hash);
    Seed.SeedFromReset(hash);
    SeededIds(r.0, r.2);
    r.0
  }

  lemma SeededIds(s: Store, songs: seq<Row<Song>>)
    requires |songs| == 5
    requires forall k :: 0 <= k < 5 ==> songs[k].id == k + 1 && songs[k].fields.soloistId == k + 1
    requires forall k :: 0 <= k < 5 ==> GetMemberById(s, songs[k].fields.soloistId).Some?
    requires forall k :: 0 <= k < 5 ==> GetMusicById(s, songs[k].id) == Some(songs[k])
    ensures forall id :: 1 <= id <= 5 ==> GetMemberById(s, id).Some? && GetMusicById(s, id).Some?
  {
    forall id | 1 <= id <= 5
      ensures GetMemberById(s, id).Some? && GetMusicById(s, id).Some?
    {
      assert songs[id - 1].id == id;
    }
  }

  /** The scale the scenario creates: "Sunday Service" on 2024-01-07, song 1 sung by
      member 2. */
  const SundayBody: ScaleRoutes.ScaleBody :=
    ScaleRoutes.ScaleBody(Some("Sunday Service"), Some("2024-01-07"),
                          ScaleRoutes.SongList([ScaleRoutes.EntryInput(Some(1), Some(2))]))

  /** Creating it in a well-formed store without scales, where song 1 and member 2
      exist: it gets id 1 and one entry; replacing its entries by an empty list is
      refused and changes nothing; deleting it succeeds, and reading it afterwards is
      a 404. */
  lemma SundayServiceLifeCycle(s0: Store)
    requires Valid(s0) && s0.scales == Empty()
    requires GetMusicById(s0, 1).Some? && GetMemberById(s0, 2).Some?
    ensures
      var (created, s1) := ScaleRoutes.Create(s0, SundayBody);
      var (deleted, s2) := ScaleRoutes.Delete(s1, 1);
      && created.Created?
      && created.body.id == 1 && created.body.name == "Sunday Service" && |created.body.songs| == 1
      && ScaleRoutes.Update(s1, 1, ScaleRoutes.ScaleBody(None, None, ScaleRoutes.SongList([])))
           == (BadRequest(InvalidSongList), s1)
      && deleted == Ok(())
      && ScaleRoutes.Get(s2, 1) == NotFound
  {
    SundayCreated(s0);
    var (created, s1) := ScaleRoutes.Create(s0, SundayBody);
    EmptyListRefused(s1, 1);
    DeleteRemovesExactly(s1.scales, 1);
  }

  /** The creation step: scale 1, stored, with the one entry. */
  lemma SundayCreated(s0: Store)
    requires Valid(s0) && s0.scales == Empty()
    requires GetMusicById(s0, 1).Some? && GetMemberById(s0, 2).Some?
    ensures
      var (created, s1) := ScaleRoutes.Create(s0, SundayBody);
      && created.Created?
      && created.body.id == 1 && created.body.name == "Sunday Service" && |created.body.songs| == 1
      && GetScaleById(s1, 1).Some?
  {
    var entry := ScaleRoutes.EntryInput(Some(1), Some(2));
    assert ScaleRoutes.Acceptable(s0, entry);
    assert ScaleRoutes.FirstBadEntry(s0, [entry]).None?;
    ScaleRoutes.CreateThenGet(s0, SundayBody);
  }

  /** Replacing the entries of a stored scale by an empty list is refused with no change. */
  lemma EmptyListRefused(s: Store, id: int)
    requires GetScaleById(s, id).Some?
    ensures ScaleRoutes.Update(s, id, ScaleRoutes.ScaleBody(None, None, ScaleRoutes.SongList([])))
      == (BadRequest(InvalidSongList), s)
  {
    assert ScaleRoutes.SongsUpdate(s, ScaleRoutes.SongList([])) == ScaleRoutes.RefuseSongs(InvalidSongList);
  }

  /** The same run on the seeded store. */
  lemma SundayService(hash: string -> string)
    ensures
      var (created, s1) := ScaleRoutes.Create(Seeded(hash), SundayBody);
      var (deleted, s2) := ScaleRoutes.Delete(s1, 1);
      && created.Created? && created.body.id == 1 && |created.body.songs| == 1
      && ScaleRoutes.Update(s1, 1, ScaleRoutes.ScaleBody(None, None, ScaleRoutes.SongList([])))
           == (BadRequest(InvalidSongList), s1)
      && deleted == Ok(())
      && ScaleRoutes.Get(s2, 1) == NotFound
  {
    var s0 := Seeded(hash);
    assert s0.scales == Empty();
    SundayServiceLifeCycle(s0);
  }

  /** With a password check that accepts "123456" against the seeded hash, a verifier
      that gives back what was signed and tokens without spaces: the seeded
      administrator's token opens the write routes, a seeded common member's token
      opens the read routes and is refused with 403 on the write routes. */
  lemma SeededLogins(hash: string -> string, matches: (string, string) -> bool,
                     sign: SignRequest -> string, verify: string -> Option<Principal>)
    requires forall p :: matches(p, hash(p))
    requires forall q :: sign(q) != "" && ' ' !in sign(q)
    requires forall q :: verify(sign(q)) == Some(q.payload)
    ensures
      var s := Seeded(hash);
      var admin := Login(s, LoginBody(Some("joao@banda.com"), Some("123456")), matches, sign);
      var common := Login(s, LoginBody(Some("maria@banda.com"), Some("123456")), matches, sign);
      && admin.LoggedIn? && admin.user.id == 1 && admin.user.accessLevel == "admin"
      && common.LoggedIn? && common.user.id == 2 && common.user.accessLevel == "common"
      && Gate(Some("Bearer " + admin.token), verify, AdminOnly).Admitted?
      && Gate(Some("Bearer " + common.token), verify, TokenOnly).Admitted?
      && Gate(Some("Bearer " + common.token), verify, AdminOnly) == Refused(403)
  {
    var s := Seeded(hash);
    var pw := Seed.SeedPassword;
    Seed.SeedLogins(hash(pw));
    StoredMemberCanLogIn(s, 0, pw, matches, sign);
    StoredMemberCanLogIn(s, 1, pw, matches, sign);
    LoginTokenOpensGate(s, LoginBody(Some("joao@banda.com"), Some(pw)), matches, sign, verify);
    LoginTokenOpensGate(s, LoginBody(Some("maria@banda.com"), Some(pw)), matches, sign, verify);
  }
}
