/** src/data/seed.js: five members sharing the hash of the password "123456", then
    five songs, the i-th sung by the i-th member created. bcrypt.hash is the
    parameter `hash`. */
module Seed {
  import opened Wrappers
  import opened Table
  import opened Database
  import MemberRoutes

  const SeedPassword: string := "123456"

  /** The members seed.js creates, in order, each with the given password hash. */
  function SeedMembers(hashed: string): (ms: seq<Member>)
    ensures |ms| == 5
    ensures forall k :: 0 <= k < 5 ==> ms[k].password == hashed
  {
    [ Member("João Silva", "joao@banda.com", hashed, "Tenor", "admin"),
      Member("Maria Santos", "maria@banda.com", hashed, "Soprano", "common"),
      Member("Pedro Costa", "pedro@banda.com", hashed, "Barítono", "common"),
      Member("Ana Oliveira", "ana@banda.com", hashed, "Contralto", "common"),
      Member("Carlos Lima", "carlos@banda.com", hashed, "Baixo", "common") ]
  }

  /** A seeded song without its soloist, which is only known once the members exist. */
  datatype SongText = SongText(name: string, key: string, versionLink: string, lyrics: string)

  const AmazingGrace: SongText := SongText("Amazing Grace", "C", "https://youtube.com/watch?v=amazing-grace-c",
    "Amazing grace, how sweet the sound\nThat saved a wretch like me\nI once was lost, but now I'm found\nWas blind, but now I see")
  const HowGreatThouArt: SongText := SongText("How Great Thou Art", "G", "https://youtube.com/watch?v=how-great-thou-art-g",
    "O Lord my God, when I in awesome wonder\nConsider all the worlds Thy hands have made\nI see the stars, I hear the rolling thunder\nThy power throughout the universe displayed")
  const ItIsWell: SongText := SongText("It Is Well With My Soul", "D", "https://youtube.com/watch?v=it-is-well-d",
    "When peace like a river attendeth my way\nWhen sorrows like sea billows roll\nWhatever my lot, Thou hast taught me to say\nIt is well, it is well with my soul")
  const GreatIsThyFaithfulness: SongText := SongText("Great Is Thy Faithfulness", "F", "https://youtube.com/watch?v=great-is-thy-faithfulness-f",
    "Great is Thy faithfulness, O God my Father\nThere is no shadow of turning with Thee\nThou changest not, Thy compassions, they fail not\nAs Thou hast been, Thou forever will be")
  const BeThouMyVision: SongText := SongText("Be Thou My Vision", "A", "https://youtube.com/watch?v=be-thou-my-vision-a",
    "Be Thou my vision, O Lord of my heart\nNaught be all else to me, save that Thou art\nThou my best thought, by day or by night\nWaking or sleeping, Thy presence my light")

  /** The seeded songs, in order. */
  const SongTexts: seq<SongText> := [AmazingGrace, HowGreatThouArt, ItIsWell, GreatIsThyFaithfulness, BeThouMyVision]

  /** The songs seed.js creates, in order; song k names the k-th created member. */
  function SeedSongs(created: seq<Row<Member>>): (gs: seq<Song>)
    requires |created| == 5
    ensures |gs| == 5
    ensures forall k :: 0 <= k < 5 ==>
      var t := SongTexts[k];
      gs[k] == Song(t.name, t.key, t.versionLink, t.lyrics, created[k].id)
  {
    seq(5, k requires 0 <= k < 5 =>
      Song(SongTexts[k].name, SongTexts[k].key, SongTexts[k].versionLink, SongTexts[k].lyrics, created[k].id))
  }

  /** The `for (const member of members) addMember(member)` loop: the members are
      appended in order under consecutive ids, and the created records come back. */
  function AddMembers(s: Store, ms: seq<Member>): (r: (Store, seq<Row<Member>>))
    ensures |r.1| == |ms|
    ensures r.0.members.rows == s.members.rows + r.1
    ensures r.0.members.nextId == s.members.nextId + |ms|
    ensures forall k :: 0 <= k < |ms| ==> r.1[k] == Row(s.members.nextId + k, ms[k])
    ensures r.0.music == s.music && r.0.scales == s.scales
    decreases |ms|
  {
    if ms == [] then (s, [])
    else
      var (s1, row) := AddMember(s, ms[0]);
      var (s2, rest) := AddMembers(s1, ms[1..]);
      (s2, [row] + rest)
  }

  /** The `for (const song of music) addMusic(song)` loop. */
  function AddSongs(s: Store, gs: seq<Song>): (r: (Store, seq<Row<Song>>))
    ensures |r.1| == |gs|
    ensures r.0.music.rows == s.music.rows + r.1
    ensures r.0.music.nextId == s.music.nextId + |gs|
    ensures forall k :: 0 <= k < |gs| ==> r.1[k] == Row(s.music.nextId + k, gs[k])
    ensures r.0.members == s.members && r.0.scales == s.scales
    decreases |gs|
  {
    if gs == [] then (s, [])
    else
      var (s1, row) := AddMusic(s, gs[0]);
      var (s2, rest) := AddSongs(s1, gs[1..]);
      (s2, [row] + rest)
  }

  /** seedDatabase: the store after seeding, with the created members and songs. */
  function SeedDatabase(s: Store, hash: string -> string): (r: (Store, seq<Row<Member>>, seq<Row<Song>>))
    ensures |r.1| == 5 && |r.2| == 5
    ensures r.0.members.rows == s.members.rows + r.1 && r.0.music.rows == s.music.rows + r.2
    ensures r.0.members.nextId == s.members.nextId + 5 && r.0.music.nextId == s.music.nextId + 5
    ensures r.0.scales == s.scales
    ensures forall k :: 0 <= k < 5 ==>
      && r.1[k] == Row(s.members.nextId + k, SeedMembers(hash(SeedPassword))[k])
      && r.2[k] == Row(s.music.nextId + k, SeedSongs(r.1)[k])
      && r.2[k].fields.soloistId == r.1[k].id
  {
    var (s1, members) := AddMembers(s, SeedMembers(hash(SeedPassword)));
    var (s2, songs) := AddSongs(s1, SeedSongs(members));
    (s2, members, songs)
  }

  // Properties

  /** Appending rows under consecutive ids from the counter keeps a table well formed
      and makes each appended row the one its id finds. */
  lemma AppendConsecutiveKeepsWellFormed<F>(t: Table<F>, added: seq<Row<F>>, t': Table<F>)
    requires WellFormed(t)
    requires t'.rows == t.rows + added && t'.nextId == t.nextId + |added|
    requires forall k :: 0 <= k < |added| ==> added[k].id == t.nextId + k
    ensures WellFormed(t')
    ensures forall k :: 0 <= k < |added| ==> Find(t'.rows, added[k].id) == Some(added[k])
  {
    var n := |t.rows|;
    AppendConsecutiveWellFormed(t, added, t');
    forall k | 0 <= k < |added|
      ensures Find(t'.rows, added[k].id) == Some(added[k])
    {
      FindStored(t', n + k);
    }
  }

  /** The well-formedness half of AppendConsecutiveKeepsWellFormed. */
  lemma AppendConsecutiveWellFormed<F>(t: Table<F>, added: seq<Row<F>>, t': Table<F>)
    requires WellFormed(t)
    requires t'.rows == t.rows + added && t'.nextId == t.nextId + |added|
    requires forall k :: 0 <= k < |added| ==> added[k].id == t.nextId + k
    ensures WellFormed(t')
  {
    var n := |t.rows|;
    assert forall k :: 0 <= k < |t'.rows| ==> t'.rows[k] == if k < n then t.rows[k] else added[k - n];
  }

  /** Seeding any well-formed store keeps it well formed, and every seeded song's
      soloist is the member created for it. */
  lemma SeedKeepsValid(s: Store, hash: string -> string)
    requires Valid(s)
    ensures var (s', members, songs) := SeedDatabase(s, hash);
      && Valid(s')
      && (forall k :: 0 <= k < 5 ==> GetMemberById(s', songs[k].fields.soloistId) == Some(members[k]))
      && (forall k :: 0 <= k < 5 ==> GetMusicById(s', songs[k].id) == Some(songs[k]))
  {
    var (s', members, songs) := SeedDatabase(s, hash);
    AppendConsecutiveKeepsWellFormed(s.members, members, s'.members);
    AppendConsecutiveKeepsWellFormed(s.music, songs, s'.music);
  }

  /** The seeded members have five different emails, known access levels, and only
      the first is an administrator. */
  lemma SeedMembersFacts(hashed: string)
    ensures var ms := SeedMembers(hashed);
      && (forall i, j :: 0 <= i < j < 5 ==> ms[i].email != ms[j].email)
      && (forall k :: 0 <= k < 5 ==> MemberRoutes.ValidAccessLevel(ms[k].accessLevel))
      && (forall k :: 0 <= k < 5 ==> (ms[k].accessLevel == "admin" <==> k == 0))
  {
    var ms := SeedMembers(hashed);
    assert ms[0].email[0] == 'j' && ms[1].email[0] == 'm' && ms[2].email[0] == 'p';
    assert ms[3].email[0] == 'a' && ms[4].email[0] == 'c';
  }

  /** The seeded administrator and the first seeded common member. */
  lemma SeedLogins(hashed: string)
    ensures var ms := SeedMembers(hashed);
      && ms[0].email == "joao@banda.com" && ms[0].accessLevel == "admin"
      && ms[1].email == "maria@banda.com" && ms[1].accessLevel == "common"
  {
  }

  /** Seeding the fresh store establishes the member invariant. */
  lemma SeedFromResetConsistent(hash: string -> string)
    ensures MemberRoutes.MembersConsistent(SeedDatabase(ResetDatabase(), hash).0)
  {
    var s := ResetDatabase();
    var (s', members, songs) := SeedDatabase(s, hash);
    var ms := SeedMembers(hash(SeedPassword));
    AppendConsecutiveWellFormed(s.members, members, s'.members);
    AppendConsecutiveWellFormed(s.music, songs, s'.music);
    SeedMembersFacts(hash(SeedPassword));
    assert s'.members.rows == members;
    assert forall k :: 0 <= k < 5 ==> s'.members.rows[k].fields == ms[k];
    assert MemberRoutes.UniqueEmails(s') by {
      forall i, j | 0 <= i < j < |s'.members.rows|
        ensures s'.members.rows[i].fields.email != s'.members.rows[j].fields.email
      {
        assert ms[i].email != ms[j].email;
      }
    }
  }

  /** Seeding the fresh store: members and songs get the ids 1 to 5, song k is sung by
      member k, every member has the hash of "123456", only the first member is an
      administrator, and the member invariant holds. */
  lemma SeedFromReset(hash: string -> string)
    ensures var (s', members, songs) := SeedDatabase(ResetDatabase(), hash);
      && MemberRoutes.MembersConsistent(s')
      && |s'.members.rows| == 5 && |s'.music.rows| == 5 && s'.scales.rows == []
      && (forall k :: 0 <= k < 5 ==> members[k].id == k + 1 && songs[k].id == k + 1)
      && (forall k :: 0 <= k < 5 ==> songs[k].fields.soloistId == k + 1)
      && (forall k :: 0 <= k < 5 ==> members[k].fields.password == hash(SeedPassword))
      && (forall k :: 0 <= k < 5 ==> (members[k].fields.accessLevel == "admin" <==> k == 0))
      && (forall k :: 0 <= k < 5 ==> GetMemberById(s', songs[k].fields.soloistId) == Some(members[k]))
  {
    var s := ResetDatabase();
    var (s', members, songs) := SeedDatabase(s, hash);
    SeedKeepsValid(s, hash);
    SeedMembersFacts(hash(SeedPassword));
    SeedFromResetConsistent(hash);
    assert s'.members.rows == members;
  }
}
