/** Which local user an unassigned test run item belongs to. */
module AssigneeBackfill {
  import opened Options
  import opened Ordering

  datatype User = User(id: int, lark: Option<string>, email: Option<string>, active: bool, role: Option<string>)
  datatype Item = Item(lark: Option<string>, email: Option<string>, assignee: Option<int>)

  /** Python's strip and lower on strings. */
  datatype Text = Text(strip: string -> string, lower: string -> string) {
    function TrimToNone(v: Option<string>): Option<string> {
      if v == None || strip(v.value) == "" then None else Some(strip(v.value))
    }

    function NormalizedEmail(v: Option<string>): Option<string> {
      var text := TrimToNone(v);
      if text == None then None else Some(lower(text.value))
    }

    predicate Writes(u: User) {
      u.active && lower(strip(if u.role == None then "" else u.role.value)) in WRITE_ROLES
    }
  }

  const WRITE_ROLES: set<string> := {"user", "admin", "super_admin"}

  /** An identifier: of the chat system, or a mail address. */
  datatype Key = Lark(id: string) | Email(address: string)

  function KeysOf(t: Text, lark: Option<string>, email: Option<string>): set<Key> {
    (if t.TrimToNone(lark) == None then {} else {Lark(t.TrimToNone(lark).value)})
    + (if t.NormalizedEmail(email) == None then {} else {Email(t.NormalizedEmail(email).value)})
  }

  ghost predicate DistinctIds(users: seq<User>) {
    forall i, j :: 0 <= i < j < |users| ==> users[i].id != users[j].id
  }

  predicate Matches(t: Text, u: User, key: Key) {
    t.Writes(u) && key in KeysOf(t, u.lark, u.email)
  }

  /** This user, and no other that may write, goes by the identifier. */
  ghost predicate Only(t: Text, users: set<User>, key: Key, u: User) {
    u in users && Matches(t, u, key) && forall v :: v in users && Matches(t, v, key) ==> v == u
  }

  /** The item names somebody, and every identifier it has names this user alone. */
  ghost predicate BelongsTo(t: Text, users: set<User>, item: Item, u: User) {
    var keys := KeysOf(t, item.lark, item.email);
    keys != {} && forall key :: key in keys ==> Only(t, users, key, u)
  }

  /** The item after the backfill; nothing here depends on any order. */
  ghost function Backfilled(t: Text, users: set<User>, item: Item): Item {
    if item.assignee != None then item
    else if u :| BelongsTo(t, users, item, u) then item.(assignee := Some(u.id))
    else item
  }

  lemma OwnerIsUnique(t: Text, users: set<User>, item: Item, u: User, v: User)
    requires BelongsTo(t, users, item, u) && BelongsTo(t, users, item, v)
    ensures u == v
  {
  }

  /** A user is set exactly on the unassigned items whose every identifier picks out that same user. */
  lemma SetExactlyWhenIdentified(t: Text, users: set<User>, item: Item, u: User)
    requires u in users && forall v, w :: v in users && w in users && v.id == w.id ==> v == w
    ensures item.assignee == None ==>
      (Backfilled(t, users, item).assignee == Some(u.id) <==> BelongsTo(t, users, item, u))
    ensures item.assignee != None ==> Backfilled(t, users, item) == item
  {
  }

  /** A second run changes nothing. */
  lemma BackfillIsIdempotent(t: Text, users: set<User>, item: Item)
    ensures Backfilled(t, users, Backfilled(t, users, item)) == Backfilled(t, users, item)
  {
  }

  // ---- the candidate lists ----

  /** The ids of the users who match, in row order. */
  function Candidates(t: Text, users: seq<User>, key: Key): seq<int> {
    if users == [] then []
    else
      var n := |users| - 1;
      Candidates(t, users[..n], key) + if Matches(t, users[n], key) then [users[n].id] else []
  }

  lemma {:induction false} CandidatesMatch(t: Text, users: seq<User>, key: Key)
    ensures forall u :: u in users && Matches(t, u, key) ==> u.id in Candidates(t, users, key)
  {
    if users != [] {
      var n := |users| - 1;
      CandidatesMatch(t, users[..n], key);
      assert users == users[..n] + [users[n]];
      hide Matches;
    }
  }

  lemma {:induction false} CandidateUser(t: Text, users: seq<User>, key: Key, id: int) returns (u: User)
    requires id in Candidates(t, users, key)
    ensures u in users && Matches(t, u, key) && u.id == id
  {
    var n := |users| - 1;
    if Matches(t, users[n], key) && users[n].id == id {
      u := users[n];
    } else {
      u := CandidateUser(t, users[..n], key, id);
    }
  }

  lemma {:induction false} OneCandidate(t: Text, users: seq<User>, key: Key, id: int)
    requires DistinctIds(users)
    ensures Candidates(t, users, key) == [id] <==> exists u :: Only(t, Elems(users), key, u) && u.id == id
  {
    if users != [] {
      var front, last := users[..|users| - 1], users[|users| - 1];
      assert users == front + [last] && last !in front;
      assert Candidates(t, users, key) == Candidates(t, front, key) + if Matches(t, last, key) then [last.id] else [];
      OneCandidate(t, front, key, id);
      hide Matches, Candidates, DistinctIds;
      if Matches(t, last, key) {
        LastMatches(t, front, last, key, id);
      } else {
        forall u ensures Only(t, Elems(users), key, u) <==> Only(t, Elems(front), key, u) {}
      }
    }
  }

  lemma LastMatches(t: Text, front: seq<User>, last: User, key: Key, id: int)
    requires last !in front && Matches(t, last, key)
    ensures Candidates(t, front, key) + [last.id] == [id]
      <==> exists u :: Only(t, Elems(front + [last]), key, u) && u.id == id
  {
    var users := Elems(front + [last]);
    assert users == Elems(front) + {last};
    CandidatesMatch(t, front, key);
    var c := Candidates(t, front, key);
    if c == [] {
      assert c + [last.id] == [last.id];
      assert last in users && Only(t, users, key, last);
      forall u | Only(t, users, key, u) ensures u == last {}
      assert [last.id] == [id] <==> last.id == id;
    } else {
      assert c[0] in c;
      var u := CandidateUser(t, front, key, c[0]);
      assert u in users && last in users && |c + [last.id]| > 1;
    }
  }

  function Found(index: map<string, seq<int>>, key: string): seq<int> {
    if key in index then index[key] else []
  }

  /** The identifier's candidates and the item's are compared as the two lists say. */
  function Chosen(lark: Option<string>, email: Option<string>, larkMatches: seq<int>,
                  emailMatches: seq<int>): Option<int> {
    if lark != None && email != None then
      if |larkMatches| == 1 && |emailMatches| == 1 && larkMatches[0] == emailMatches[0] then
        Some(larkMatches[0])
      else None
    else if lark != None && |larkMatches| == 1 then Some(larkMatches[0])
    else if email != None && |emailMatches| == 1 then Some(emailMatches[0])
    else None
  }

  /** The rows of the item table, by primary key. */
  class ItemTable {
    var rows: map<int, Item>

    constructor (rows: map<int, Item>)
      ensures this.rows == rows
    {
      this.rows := rows;
    }
  }

  lemma NextCandidates(t: Text, users: seq<User>, i: nat, key: Key)
    requires i < |users|
    ensures Candidates(t, users[..i + 1], key)
         == Candidates(t, users[..i], key) + if Matches(t, users[i], key) then [users[i].id] else []
  {
    assert users[..i + 1][..i] == users[..i];
  }

  /** The lists are those of the users, for every identifier that can be looked up. */
  ghost predicate Indexes(t: Text, users: seq<User>, larks: map<string, seq<int>>, emails: map<string, seq<int>>) {
    && (forall id :: Found(larks, id) == Candidates(t, users, Lark(id)))
    && (forall address :: Found(emails, address) == Candidates(t, users, Email(address)))
  }

  function Added(index: map<string, seq<int>>, key: string, id: int): map<string, seq<int>> {
    index[key := Found(index, key) + [id]]
  }

  method IndexUser(t: Text, u: User, larks: map<string, seq<int>>, emails: map<string, seq<int>>)
    returns (larks': map<string, seq<int>>, emails': map<string, seq<int>>)
    ensures forall id :: Found(larks', id) == Found(larks, id) + if Matches(t, u, Lark(id)) then [u.id] else []
    ensures forall a :: Found(emails', a) == Found(emails, a) + if Matches(t, u, Email(a)) then [u.id] else []
  {
    larks', emails' := larks, emails;
    if !t.Writes(u) {
      return;
    }
    var lark, email := t.TrimToNone(u.lark), t.NormalizedEmail(u.email);
    if lark != None {
      larks' := Added(larks, lark.value, u.id);
    }
    if email != None {
      emails' := Added(emails, email.value, u.id);
    }
  }

  method IndexUsers(t: Text, users: seq<User>) returns (larks: map<string, seq<int>>, emails: map<string, seq<int>>)
    ensures Indexes(t, users, larks, emails)
  {
    larks, emails := map[], map[];
    assert users[..0] == [];
    for i := 0 to |users|
      invariant Indexes(t, users[..i], larks, emails)
    {
      hide Found, Matches, Candidates;
      larks, emails := IndexUser(t, users[i], larks, emails);
      forall id ensures Found(larks, id) == Candidates(t, users[..i + 1], Lark(id)) {
        NextCandidates(t, users, i, Lark(id));
      }
      forall a ensures Found(emails, a) == Candidates(t, users[..i + 1], Email(a)) {
        NextCandidates(t, users, i, Email(a));
      }
    }
    assert users[..|users|] == users;
  }

  lemma CandidateIs(t: Text, users: seq<User>, key: Key, u: User)
    requires DistinctIds(users) && u in users
    ensures Candidates(t, users, key) == [u.id] <==> Only(t, Elems(users), key, u)
  {
    OneCandidate(t, users, key, u.id);
    hide Matches;
  }

  function Matching(t: Text, users: seq<User>, lark: Option<string>): seq<int> {
    if lark == None then [] else Candidates(t, users, Lark(lark.value))
  }

  function MatchingEmail(t: Text, users: seq<User>, email: Option<string>): seq<int> {
    if email == None then [] else Candidates(t, users, Email(email.value))
  }

  /** What is chosen from the lists is the owner's id, and nothing when there is no owner. */
  lemma ChosenIsOwner(t: Text, users: seq<User>, item: Item)
    requires DistinctIds(users) && item.assignee == None
    ensures var lark, email := t.TrimToNone(item.lark), t.NormalizedEmail(item.email);
      Backfilled(t, Elems(users), item)
      == item.(assignee := Chosen(lark, email, Matching(t, users, lark), MatchingEmail(t, users, email)))
  {
    var lark, email := t.TrimToNone(item.lark), t.NormalizedEmail(item.email);
    var chosen := Chosen(lark, email, Matching(t, users, lark), MatchingEmail(t, users, email));
    if u :| BelongsTo(t, Elems(users), item, u) {
      OwnerIsChosen(t, users, item, u);
      var v :|
        BelongsTo(t, Elems(users), item, v) && Backfilled(t, Elems(users), item) == item.(assignee := Some(v.id));
      OwnerIsUnique(t, Elems(users), item, u, v);
    } else if chosen != None {
      var u := ChosenHasOwner(t, users, item, chosen.value);
    }
  }

  lemma OwnerIsChosen(t: Text, users: seq<User>, item: Item, u: User)
    requires DistinctIds(users) && BelongsTo(t, Elems(users), item, u)
    ensures var lark, email := t.TrimToNone(item.lark), t.NormalizedEmail(item.email);
      Chosen(lark, email, Matching(t, users, lark), MatchingEmail(t, users, email)) == Some(u.id)
  {
    hide Candidates, Matches, DistinctIds;
    var keys := KeysOf(t, item.lark, item.email);
    forall key | key in keys ensures Candidates(t, users, key) == [u.id] {
      assert Only(t, Elems(users), key, u);
      CandidateIs(t, users, key, u);
    }
    var lark, email := t.TrimToNone(item.lark), t.NormalizedEmail(item.email);
    assert lark != None ==> Lark(lark.value) in keys;
    assert email != None ==> Email(email.value) in keys;
  }

  lemma ChosenHasOwner(t: Text, users: seq<User>, item: Item, id: int) returns (u: User)
    requires DistinctIds(users)
    requires var lark, email := t.TrimToNone(item.lark), t.NormalizedEmail(item.email);
      Chosen(lark, email, Matching(t, users, lark), MatchingEmail(t, users, email)) == Some(id)
    ensures BelongsTo(t, Elems(users), item, u) && u.id == id
  {
    hide Candidates, Matches, DistinctIds;
    var keys := KeysOf(t, item.lark, item.email);
    var lark, email := t.TrimToNone(item.lark), t.NormalizedEmail(item.email);
    assert lark != None ==> Matching(t, users, lark) == [id];
    assert email != None ==> MatchingEmail(t, users, email) == [id];
    assert forall key :: key in keys ==> Candidates(t, users, key) == [id];
    var some :| some in keys;
    OneCandidate(t, users, some, id);
    u :| Only(t, Elems(users), some, u) && u.id == id;
    forall key | key in keys ensures Only(t, Elems(users), key, u) {
      CandidateIs(t, users, key, u);
    }
  }

  /** The rows with these ids, backfilled. */
  ghost function AfterRows(t: Text, users: set<User>, rows: map<int, Item>, ids: set<int>): map<int, Item> {
    map id | id in rows :: if id in ids then Backfilled(t, users, rows[id]) else rows[id]
  }

  /** All rows; the query leaves out what is assigned already. */
  ghost function AfterAll(t: Text, users: set<User>, rows: map<int, Item>): map<int, Item> {
    map id | id in rows :: Backfilled(t, users, rows[id])
  }

  /** The backfill visits the unassigned rows in whatever order they come, and the users in theirs. */
  method BackfillExactLocalAssignees(t: Text, users: seq<User>, table: ItemTable, order: seq<int>)
    requires DistinctIds(users) && NoDup(order)
    requires Elems(order) == set id | id in table.rows && table.rows[id].assignee == None
    modifies table
    ensures table.rows == AfterAll(t, Elems(users), old(table.rows))
  {
    hide DistinctIds, Backfilled, Candidates, Matches;
    var larks, emails := IndexUsers(t, users);
    ghost var start := table.rows;
    var i := 0;
    while i < |order|
      invariant i <= |order| && table.rows == AfterRows(t, Elems(users), start, Elems(order[..i]))
    {
      var id := order[i];
      assert id in Elems(order) && id !in order[..i];
      assert order[..i + 1] == order[..i] + [id];
      var item := table.rows[id];
      var lark, email := t.TrimToNone(item.lark), t.NormalizedEmail(item.email);
      var larkMatches := if lark != None then Found(larks, lark.value) else [];
      var emailMatches := if email != None then Found(emails, email.value) else [];
      var candidate := Chosen(lark, email, larkMatches, emailMatches);
      ChosenIsOwner(t, users, item);
      if candidate != None {
        table.rows := table.rows[id := item.(assignee := candidate)];
      }
      i := i + 1;
    }
    assert order[..i] == order;
    AssignedStay(t, Elems(users), start, Elems(order));
  }

  lemma AssignedStay(t: Text, users: set<User>, rows: map<int, Item>, ids: set<int>)
    requires ids == set id | id in rows && rows[id].assignee == None
    ensures AfterRows(t, users, rows, ids) == AfterAll(t, users, rows)
  {
    forall id | id in rows && id !in ids ensures Backfilled(t, users, rows[id]) == rows[id] {
      assert rows[id].assignee != None;
    }
    hide Backfilled;
  }
}
