/** src/routes/members.js: listing, reading, creating, updating and deleting members.
    Every response strips the password hash; creation and update enforce email
    uniqueness and the two access levels. bcrypt.hash is the parameter `hash`. */
module MemberRoutes {
  import opened Wrappers
  import opened Table
  import opened Database
  import opened Request
  import opened Http
  import opened Views

  /** The JSON body of POST and PUT /members. */
  datatype MemberBody = MemberBody(
    name: Option<string>, email: Option<string>, password: Option<string>,
    voiceType: Option<string>, accessLevel: Option<string>)

  /** `['admin', 'common'].includes(accessLevel)`. */
  predicate ValidAccessLevel(a: string) {
    a == "admin" || a == "common"
  }

  /** `getMembers().find(member => member.email === email)` finds something: plain
      equality, no case or whitespace normalisation. */
  predicate EmailTaken(s: Store, email: string) {
    exists k :: 0 <= k < |s.members.rows| && s.members.rows[k].fields.email == email
  }

  /** No two stored members share an email. */
  predicate UniqueEmails(s: Store) {
    forall i, j :: 0 <= i < j < |s.members.rows| ==>
      s.members.rows[i].fields.email != s.members.rows[j].fields.email
  }

  /** Every stored member has one of the two access levels. */
  predicate KnownAccessLevels(s: Store) {
    forall k :: 0 <= k < |s.members.rows| ==> ValidAccessLevel(s.members.rows[k].fields.accessLevel)
  }

  /** What the member routes keep true of the store. */
  predicate MembersConsistent(s: Store) {
    Valid(s) && UniqueEmails(s) && KnownAccessLevels(s)
  }

  /** The five fields POST requires, all truthy. */
  predicate AllGiven(b: MemberBody) {
    Given(b.name) && Given(b.email) && Given(b.password) && Given(b.voiceType) && Given(b.accessLevel)
  }

  /** GET /members: every member, in store order, without its password. */
  function List(s: Store): (r: seq<PublicMember>)
    ensures |r| == |s.members.rows|
    ensures forall k :: 0 <= k < |r| ==> r[k] == Strip(s.members.rows[k])
  {
    var all := GetMembers(s);
    seq(|all|, k requires 0 <= k < |all| => Strip(all[k]))
  }

  /** GET /members/:id. */
  function Get(s: Store, id: int): (r: Reply<PublicMember>)
    ensures r.Ok? || r.NotFound?
    ensures r.NotFound? <==> GetMemberById(s, id).None?
    ensures r.Ok? ==> r.body == Strip(GetMemberById(s, id).value)
  {
    match GetMemberById(s, id)
    case None => NotFound
    case Some(m) => Ok(Strip(m))
  }

  /** The member POST stores: the given fields with the password replaced by its hash. */
  function NewMember(b: MemberBody, hash: string -> string): Member
    requires AllGiven(b)
  {
    Member(b.name.value, b.email.value, hash(b.password.value), b.voiceType.value, b.accessLevel.value)
  }

  /** POST /members. The checks run in the source's order: required fields, then email
      uniqueness, then access level; only when all pass is one member added. */
  function Create(s: Store, b: MemberBody, hash: string -> string): (r: (Reply<PublicMember>, Store))
    ensures r.0.Created? || r.0.BadRequest?
    ensures !r.0.Created? ==> r.1 == s
    ensures r.0 == BadRequest(MissingFields) <==> !AllGiven(b)
    ensures r.0 == BadRequest(DuplicateEmail) <==> AllGiven(b) && EmailTaken(s, b.email.value)
    ensures r.0 == BadRequest(InvalidAccessLevel) <==>
      AllGiven(b) && !EmailTaken(s, b.email.value) && !ValidAccessLevel(b.accessLevel.value)
    ensures r.0.Created? <==>
      AllGiven(b) && !EmailTaken(s, b.email.value) && ValidAccessLevel(b.accessLevel.value)
    ensures r.0.Created? ==>
      var row := Row(s.members.nextId, Member(b.name.value, b.email.value, hash(b.password.value),
                                              b.voiceType.value, b.accessLevel.value));
      && r.1.members.rows == s.members.rows + [row]
      && r.1.members.nextId == s.members.nextId + 1
      && r.1.music == s.music && r.1.scales == s.scales
      && r.0.body == Strip(row)
  {
    if !AllGiven(b) then (BadRequest(MissingFields), s)
    else if EmailTaken(s, b.email.value) then (BadRequest(DuplicateEmail), s)
    else if !ValidAccessLevel(b.accessLevel.value) then (BadRequest(InvalidAccessLevel), s)
    else
      var (s', row) := AddMember(s, NewMember(b, hash));
      (Created(Strip(row)), s')
  }

  /** The `updateData` PUT builds: only truthy fields, the password hashed, no `id`. */
  function UpdateData(b: MemberBody, hash: string -> string): (p: MemberPatch)
    ensures p.name == IfGiven(b.name) && p.email == IfGiven(b.email)
    ensures p.voiceType == IfGiven(b.voiceType) && p.accessLevel == IfGiven(b.accessLevel)
    ensures p.password.Some? <==> Given(b.password)
    ensures p.password.Some? ==> p.password.value == hash(b.password.value)
  {
    MemberPatch(IfGiven(b.name), IfGiven(b.email),
                if Given(b.password) then Some(hash(b.password.value)) else None,
                IfGiven(b.voiceType), IfGiven(b.accessLevel))
  }

  /** The new email collides with another member's: it is truthy, differs from the
      member's current email, and some stored member has it. */
  predicate EmailCollides(s: Store, current: Member, b: MemberBody) {
    Given(b.email) && b.email.value != current.email && EmailTaken(s, b.email.value)
  }

  /** PUT /members/:id. The member must exist; an invalid access level is refused
      before the email check; the store changes only on success. */
  function Update(s: Store, id: int, b: MemberBody, hash: string -> string): (r: (Reply<PublicMember>, Store))
    ensures r.0.Ok? || r.0.BadRequest? || r.0.NotFound?
    ensures !r.0.Ok? ==> r.1 == s
    ensures r.0.NotFound? <==> GetMemberById(s, id).None?
    ensures r.0 == BadRequest(InvalidAccessLevel) <==>
      GetMemberById(s, id).Some? && Given(b.accessLevel) && !ValidAccessLevel(b.accessLevel.value)
    ensures r.0 == BadRequest(DuplicateEmail) <==>
      && GetMemberById(s, id).Some?
      && !(Given(b.accessLevel) && !ValidAccessLevel(b.accessLevel.value))
      && EmailCollides(s, GetMemberById(s, id).value.fields, b)
    ensures r.0.Ok? <==>
      && GetMemberById(s, id).Some?
      && !(Given(b.accessLevel) && !ValidAccessLevel(b.accessLevel.value))
      && !EmailCollides(s, GetMemberById(s, id).value.fields, b)
    ensures r.0.Ok? ==>
      var (s', updated) := UpdateMember(s, id, Patch(None, UpdateData(b, hash)));
      && r.1 == s'
      && updated.Some?
      && r.0.body == Strip(updated.value)
  {
    match GetMemberById(s, id)
    case None => (NotFound, s)
    case Some(existing) =>
      if Given(b.accessLevel) && !ValidAccessLevel(b.accessLevel.value) then (BadRequest(InvalidAccessLevel), s)
      else if EmailCollides(s, existing.fields, b) then (BadRequest(DuplicateEmail), s)
      else
        var (s', updated) := UpdateMember(s, id, Patch(None, UpdateData(b, hash)));
        match updated
        case None => (ServerError, s)  // unreachable: the member was just found
        case Some(m) => (Ok(Strip(m)), s')
  }

  /** DELETE /members/:id. Songs and scales that name the member keep their references. */
  function Delete(s: Store, id: int): (r: (Reply<()>, Store))
    ensures r.0.Ok? || r.0.NotFound?
    ensures r.0.NotFound? <==> GetMemberById(s, id).None?
    ensures r.0.NotFound? ==> r.1 == s
    ensures r.0.Ok? ==> r.1 == DeleteMember(s, id).0
    ensures r.1.music == s.music && r.1.scales == s.scales
  {
    match GetMemberById(s, id)
    case None => (NotFound, s)
    case Some(_) =>
      var (s', deleted) := DeleteMember(s, id);
      if deleted then (Ok(()), s') else (ServerError, s)
  }

  // Properties

  /** Sending a member's own current email back is never a duplicate, whatever else
      the store holds. */
  lemma OwnEmailNeverDuplicate(s: Store, id: int, b: MemberBody, hash: string -> string)
    requires GetMemberById(s, id).Some? && b.email == Some(GetMemberById(s, id).value.fields.email)
    ensures Update(s, id, b, hash).0 != BadRequest(DuplicateEmail)
  {
  }

  /** Creating a member keeps emails unique and access levels known, and the created
      member is what GET /members/:id then returns. */
  lemma CreateKeepsConsistent(s: Store, b: MemberBody, hash: string -> string)
    requires MembersConsistent(s)
    ensures var (reply, s') := Create(s, b, hash);
      && MembersConsistent(s')
      && (reply.Created? ==> Get(s', reply.body.id) == Ok(reply.body))
  {
    var (reply, s') := Create(s, b, hash);
    if reply.Created? {
      AddIssuesFreshId(s.members, None, NewMember(b, hash));
      var n := |s.members.rows|;
      assert s'.members.rows[n].fields.email == b.email.value;
      assert forall k :: 0 <= k < n ==> s'.members.rows[k] == s.members.rows[k];
      assert UniqueEmails(s') by {
        forall i, j | 0 <= i < j < |s'.members.rows|
          ensures s'.members.rows[i].fields.email != s'.members.rows[j].fields.email
        {
          if j == n {
            assert s.members.rows[i].fields.email != b.email.value;
          }
        }
      }
    }
  }

  /** Updating a member keeps emails unique and access levels known, and the updated
      member is what GET /members/:id then returns. */
  lemma UpdateKeepsConsistent(s: Store, id: int, b: MemberBody, hash: string -> string)
    requires MembersConsistent(s)
    ensures var (reply, s') := Update(s, id, b, hash);
      && MembersConsistent(s')
      && (reply.Ok? ==> Get(s', id) == Ok(reply.body))
  {
    var (reply, s') := Update(s, id, b, hash);
    if reply.Ok? {
      var p := Patch(None, UpdateData(b, hash));
      UpdateKeepsIds(s.members, id, p, MergeMember);
      var i := FindIndex(s.members.rows, id);
      var before := s.members.rows[i].fields;
      var after := s'.members.rows[i].fields;
      assert after == MergeMember(before, p.fields);
      assert forall k :: 0 <= k < |s.members.rows| && k != i ==> s'.members.rows[k] == s.members.rows[k];
      assert after.email == before.email || !EmailTaken(s, after.email);
      assert UniqueEmails(s') by {
        forall j, k | 0 <= j < k < |s'.members.rows|
          ensures s'.members.rows[j].fields.email != s'.members.rows[k].fields.email
        {
          if j == i {
            assert s.members.rows[k].fields.email != after.email;
          } else if k == i {
            assert s.members.rows[j].fields.email != after.email;
          }
        }
      }
      assert KnownAccessLevels(s') by {
        forall k | 0 <= k < |s'.members.rows|
          ensures ValidAccessLevel(s'.members.rows[k].fields.accessLevel)
        {
          if k == i {
            assert ValidAccessLevel(before.accessLevel);
          }
        }
      }
    }
  }

  /** Deleting a member keeps the member invariant, and the member is gone. */
  lemma DeleteKeepsConsistent(s: Store, id: int)
    requires MembersConsistent(s)
    ensures var (reply, s') := Delete(s, id);
      && MembersConsistent(s')
      && GetMemberById(s', id).None?
  {
    DeleteRemovesExactly(s.members, id);
    var (reply, s') := Delete(s, id);
    if reply.Ok? {
      SpliceKeepsMemberFacts(s, s', FindIndex(s.members.rows, id));
    }
  }

  /** Splicing one member out keeps emails unique and access levels known. */
  lemma SpliceKeepsMemberFacts(s: Store, s': Store, i: int)
    requires UniqueEmails(s) && KnownAccessLevels(s)
    requires 0 <= i < |s.members.rows|
    requires s'.members.rows == s.members.rows[..i] + s.members.rows[i + 1..]
    ensures UniqueEmails(s') && KnownAccessLevels(s')
  {
    var rows, rows' := s.members.rows, s'.members.rows;
    assert forall k :: 0 <= k < |rows'| ==> rows'[k] == rows[if k < i then k else k + 1];
    forall j, k | 0 <= j < k < |rows'|
      ensures rows'[j].fields.email != rows'[k].fields.email
    {
      var j0, k0 := if j < i then j else j + 1, if k < i then k else k + 1;
      assert rows'[j] == rows[j0] && rows'[k] == rows[k0] && j0 < k0;
    }
  }

  /** Under the member invariant the member found by email is the only one with it. */
  lemma EmailIdentifiesMember(s: Store, i: int, j: int)
    requires MembersConsistent(s)
    requires 0 <= i < |s.members.rows| && 0 <= j < |s.members.rows|
    requires s.members.rows[i].fields.email == s.members.rows[j].fields.email
    ensures i == j
  {
    if i < j {
    } else if j < i {
    }
  }
}
