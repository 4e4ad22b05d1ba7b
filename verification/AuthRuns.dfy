/** Whole runs of the auth service together with the relay that publishes its outbox: requests whose
    transactions commit or roll back, publishers polling, handing over and marking, codes being deleted. */
module AuthRuns {
  import opened Outboxes
  import opened AuthTransactions
  import R = Relays

  /** `registered` is history: the users committed by Register. The outbox of `db` is the table of `relay`. */
  datatype World = World(db: Db, relay: R.Relay, registered: set<string>)

  /** Users may exist before the run, with any roles; the other tables start empty. */
  function Start(users: map<string, User>, roles: map<string, set<string>>): World {
    World(Db([], [], users, roles, []), R.START, {})
  }

  datatype Event =
    | Requesting(r: Request, entry: Id, fails: set<nat>, lookupFails: bool)
    | Relaying(e: R.Event)
    | DeletingCodes(codes: set<MagicCode>)
    | DeletingChanges(changes: set<Change>)

  function Serve(w: World, outbox: bool, e: Event): World
    requires e.Requesting?
  {
    var db := Committed(w.db, outbox, e.r, e.entry, e.fails, e.lookupFails);
    World(db, w.relay.(rows := db.outbox),
          if e.r.Register? && e.r.userID !in w.db.users && e.r.userID in db.users
          then w.registered + {e.r.userID} else w.registered)
  }

  /** Other modules may commit entries of their own, under other names. */
  function Relay(w: World, e: R.Event): World {
    if e.Committing? && e.name == EVENT_REGISTERED then w
    else
      var relay := R.Step(w.relay, e);
      w.(relay := relay, db := w.db.(outbox := relay.rows))
  }

  function Without<T(==)>(all: seq<T>, gone: set<T>): seq<T> {
    if all == [] then []
    else Without(all[..|all| - 1], gone) + if all[|all| - 1] in gone then [] else [all[|all| - 1]]
  }

  function Step(outbox: bool, w: World, e: Event): World {
    match e
    case Requesting(_, _, _, _) => Serve(w, outbox, e)
    case Relaying(re) => Relay(w, re)
    case DeletingCodes(codes) => w.(db := w.db.(codes := Without(w.db.codes, codes)))
    case DeletingChanges(changes) => w.(db := w.db.(changes := Without(w.db.changes, changes)))
  }

  function After(outbox: bool, w: World, run: seq<Event>): World {
    if run == [] then w else Step(outbox, After(outbox, w, run[..|run| - 1]), run[|run| - 1])
  }

  // ---------------------------------------------------------------- what a run keeps

  type Fields = map<string, string>

  function Count<T>(xs: seq<T>, p: T -> bool): nat {
    if xs == [] then 0 else Count(xs[..|xs| - 1], p) + if p(xs[|xs| - 1]) then 1 else 0
  }

  function IsEntry(name: string, fields: Fields): Row -> bool {
    (r: Row) => r.name == name && r.payload == Object(fields)
  }

  function RegistersUser(id: string): Row -> bool {
    (r: Row) => r.name == EVENT_REGISTERED && r.payload.Object?
                && "user_id" in r.payload.fields && r.payload.fields["user_id"] == id
  }

  function AsksFor(fields: Fields): MagicCode -> bool {
    (c: MagicCode) => LoginFields(c.code, c.email, c.phone) == fields
  }

  function ChangeAsksFor(fields: Fields): Change -> bool { (c: Change) => ChangeFields(c) == fields }

  /** How many entries carry this code to this recipient. */
  function Entries(rows: seq<Row>, fields: Fields): nat { Count(rows, IsEntry(EVENT_MAGIC_CODE, fields)) }

  /** How many magic codes and pending changes call for such an entry. */
  function Wanting(db: Db, fields: Fields): nat {
    Count(db.codes, AsksFor(fields)) + Count(db.changes, ChangeAsksFor(fields))
  }

  /** How many entries announce the registration of this user. */
  function Registrations(rows: seq<Row>, id: string): nat { Count(rows, RegistersUser(id)) }

  ghost predicate CodesAnnounced(db: Db) {
    forall fields: Fields :: Wanting(db, fields) <= Entries(db.outbox, fields)
  }

  ghost predicate KindsValid(db: Db) {
    forall c <- db.changes :: c.kind == "email" || c.kind == "phone"
  }

  ghost predicate RegistrationsAgree(w: World) {
    && w.registered <= w.db.users.Keys
    && (forall id <- w.registered :: id in w.db.roles && w.db.roles[id] == {ROLE_USER})
    && (forall id: string :: Registrations(w.db.outbox, id) == if id in w.registered then 1 else 0)
  }

  ghost predicate Inv(w: World) {
    && w.db.outbox == w.relay.rows && w.db.roles.Keys <= w.db.users.Keys
    && R.PublishedWereHanded(w.relay) && CodesAnnounced(w.db) && RegistrationsAgree(w) && KindsValid(w.db)
  }

  lemma {:induction false} WithoutKeepsMembers<T>(xs: seq<T>, gone: set<T>)
    ensures forall x <- Without(xs, gone) :: x in xs
  {
    if xs != [] {
      WithoutKeepsMembers(xs[..|xs| - 1], gone);
    }
  }

  lemma CountAppend<T>(xs: seq<T>, x: T, p: T -> bool)
    ensures Count(xs + [x], p) == Count(xs, p) + if p(x) then 1 else 0
  {
    assert (xs + [x])[..|xs|] == xs;
  }

  lemma {:induction false} CountWithout<T>(xs: seq<T>, gone: set<T>, p: T -> bool)
    ensures Count(Without(xs, gone), p) <= Count(xs, p)
  {
    if xs != [] {
      var front, last := xs[..|xs| - 1], xs[|xs| - 1];
      CountWithout(front, gone, p);
      CountAppend(Without(front, gone), last, p);
      if last in gone {
        assert Without(xs, gone) == Without(front, gone);
      }
    }
  }

  lemma {:induction false} CountMarked(rows: seq<Row>, ids: seq<Id>, p: Row -> bool)
    requires forall r: Row :: p(r.(published := true)) == p(r)
    ensures Count(Marked(rows, ids), p) == Count(rows, p)
  {
    if rows != [] {
      CountMarked(rows[..|rows| - 1], ids, p);
      assert Marked(rows, ids)[..|rows| - 1] == Marked(rows[..|rows| - 1], ids);
    }
  }

  // ---------------------------------------------------------------- relay steps

  lemma RelayRows(s: R.Relay, e: R.Event)
    requires !(e.Committing? && e.name == EVENT_REGISTERED)
    ensures forall fields: Fields :: Entries(R.Step(s, e).rows, fields) >= Entries(s.rows, fields)
    ensures forall id: string :: Registrations(R.Step(s, e).rows, id) == Registrations(s.rows, id)
  {
    var rows := R.Step(s, e).rows;
    match e
    case Committing(key, name, payload) =>
      if rows != s.rows {
        var row := Row(key, name, payload, false);
        forall fields: Fields ensures Entries(rows, fields) >= Entries(s.rows, fields) {
          CountAppend(s.rows, row, IsEntry(EVENT_MAGIC_CODE, fields));
        }
        forall id: string ensures Registrations(rows, id) == Registrations(s.rows, id) {
          CountAppend(s.rows, row, RegistersUser(id));
        }
      }
    case Marking(p, ok) =>
      if rows != s.rows {
        forall fields: Fields ensures Entries(rows, fields) >= Entries(s.rows, fields) {
          CountMarked(s.rows, s.publishing[p].ids, IsEntry(EVENT_MAGIC_CODE, fields));
        }
        forall id: string ensures Registrations(rows, id) == Registrations(s.rows, id) {
          CountMarked(s.rows, s.publishing[p].ids, RegistersUser(id));
        }
      }
    case _ =>
  }

  lemma RelayKeepsInv(w: World, e: R.Event)
    requires Inv(w)
    ensures Inv(Relay(w, e))
  {
    hide Entries, Registrations, R.Step;
    if !(e.Committing? && e.name == EVENT_REGISTERED) {
      R.StepKeepsPublishedHanded(w.relay, e);
      RelayRows(w.relay, e);
    }
  }

  lemma DeletionKeepsInv(w: World, codes: set<MagicCode>, changes: set<Change>)
    requires Inv(w)
    ensures Inv(w.(db := w.db.(codes := Without(w.db.codes, codes), changes := Without(w.db.changes, changes))))
  {
    WithoutKeepsMembers(w.db.changes, changes);
    forall fields: Fields
      ensures Count(Without(w.db.codes, codes), AsksFor(fields)) <= Count(w.db.codes, AsksFor(fields))
      ensures Count(Without(w.db.changes, changes), ChangeAsksFor(fields))
           <= Count(w.db.changes, ChangeAsksFor(fields))
    {
      CountWithout(w.db.codes, codes, AsksFor(fields));
      CountWithout(w.db.changes, changes, ChangeAsksFor(fields));
    }
  }

  lemma {:induction false} WithoutNone<T>(xs: seq<T>)
    ensures Without(xs, {}) == xs
  {
    if xs != [] {
      WithoutNone(xs[..|xs| - 1]);
    }
  }

  // ---------------------------------------------------------------- committed transactions

  /** A committed request appended exactly one unpublished entry, with this name and these fields. */
  ghost predicate Appended(db: Db, after: Db, entry: Id, name: string, fields: map<string, string>) {
    after.outbox == db.outbox + [Row(entry, name, Object(fields), false)]
  }

  lemma AppendCounts(db: Db, after: Db, entry: Id, name: string, fields: Fields)
    requires Appended(db, after, entry, name, fields)
    ensures forall f: Fields :: Entries(after.outbox, f) == Entries(db.outbox, f)
              + if name == EVENT_MAGIC_CODE && f == fields then 1 else 0
    ensures forall id: string :: Registrations(after.outbox, id) == Registrations(db.outbox, id)
              + if name == EVENT_REGISTERED && "user_id" in fields && fields["user_id"] == id then 1 else 0
  {
    var row := Row(entry, name, Object(fields), false);
    forall f: Fields ensures Entries(after.outbox, f) == Entries(db.outbox, f)
                       + if name == EVENT_MAGIC_CODE && f == fields then 1 else 0
    {
      CountAppend(db.outbox, row, IsEntry(EVENT_MAGIC_CODE, f));
    }
    forall id: string
      ensures Registrations(after.outbox, id) == Registrations(db.outbox, id)
        + if name == EVENT_REGISTERED && "user_id" in fields && fields["user_id"] == id then 1 else 0
    {
      CountAppend(db.outbox, row, RegistersUser(id));
    }
  }

  lemma CodeCounts(db: Db, c: MagicCode)
    ensures forall f: Fields :: Wanting(db.(codes := db.codes + [c]), f)
              == Wanting(db, f) + if LoginFields(c.code, c.email, c.phone) == f then 1 else 0
  {
    forall f: Fields ensures Wanting(db.(codes := db.codes + [c]), f)
                       == Wanting(db, f) + if LoginFields(c.code, c.email, c.phone) == f then 1 else 0
    {
      CountAppend(db.codes, c, AsksFor(f));
    }
  }

  lemma ChangeCounts(db: Db, c: Change)
    ensures forall f: Fields :: Wanting(db.(changes := db.changes + [c]), f)
              == Wanting(db, f) + if ChangeFields(c) == f then 1 else 0
  {
    forall f: Fields ensures Wanting(db.(changes := db.changes + [c]), f)
                       == Wanting(db, f) + if ChangeFields(c) == f then 1 else 0
    {
      CountAppend(db.changes, c, ChangeAsksFor(f));
    }
  }

  /** Wanting looks at codes and changes only. */
  lemma WantingReads(db: Db, other: Db)
    requires db.codes == other.codes && db.changes == other.changes
    ensures forall f: Fields :: Wanting(db, f) == Wanting(other, f)
  {
  }

  lemma LoginCommits(db: Db, r: Request, entry: Id, fails: set<nat>)
    requires r.RequestLogin? && LoginBody(db, true, r, entry, fails).Some?
    ensures var after := LoginBody(db, true, r, entry, fails).value;
            && Appended(db, after, entry, EVENT_MAGIC_CODE, LoginFields(r.code, r.email, r.phone))
            && after == db.(codes := db.codes + [MagicCode(r.code, r.email, r.phone)], outbox := after.outbox)
  {
  }

  lemma ChangeCommits(db: Db, r: Request, entry: Id, fails: set<nat>)
    requires r.ChangeContact? && ChangeBody(db, true, r, entry, fails).Some?
    ensures var after := ChangeBody(db, true, r, entry, fails).value;
            && Appended(db, after, entry, EVENT_MAGIC_CODE, ChangeFields(r.change))
            && after == db.(changes := db.changes + [r.change], outbox := after.outbox)
  {
  }

  lemma RegisterCommits(db: Db, r: Request, entry: Id, fails: set<nat>)
    requires r.Register? && RegisterBody(db, true, r, entry, fails).Some? && db.roles.Keys <= db.users.Keys
    ensures var after := RegisterBody(db, true, r, entry, fails).value;
            && Appended(db, after, entry, EVENT_REGISTERED,
                        RegisteredFields(r.userID, r.email, r.phone, r.displayName))
            && r.userID !in db.users
            && after == db.(users := db.users[r.userID := User(r.email, r.phone, r.displayName)],
                            roles := db.roles[r.userID := {ROLE_USER}], outbox := after.outbox)
    ensures var after := RegisterBody(db, true, r, entry, fails).value;
            && |after.outbox| == |db.outbox| + 1
            && var e := after.outbox[|db.outbox|];
               && e.name == "auth.user.registered" && Says(e, "user_id", r.userID)
               && Says(e, "email", r.email) && Says(e, "phone", r.phone) && Says(e, "display_name", r.displayName)
  {
    assert {} + {ROLE_USER} == {ROLE_USER};
    var after := RegisterBody(db, true, r, entry, fails).value;
    assert after.users == db.users[r.userID := User(r.email, r.phone, r.displayName)];
  }

  /** The transaction of e commits. */
  ghost predicate Commits(w: World, e: Event) {
    e.Requesting? && Proceeds(w.db, e.r, e.lookupFails) && Body(w.db, true, e.r, e.entry, e.fails).Some?
  }

  lemma LoginKeepsInv(w: World, e: Event)
    requires Inv(w) && Commits(w, e) && e.r.RequestLogin?
    ensures Inv(Serve(w, true, e))
  {
    hide LoginBody, Entries, Wanting, Registrations, Proceeds, LoginFields;
    var r := e.r;
    LoginCommits(w.db, r, e.entry, e.fails);
    var after := LoginBody(w.db, true, r, e.entry, e.fails).value;
    AppendCounts(w.db, after, e.entry, EVENT_MAGIC_CODE, LoginFields(r.code, r.email, r.phone));
    CodeCounts(w.db, MagicCode(r.code, r.email, r.phone));
    WantingReads(after, w.db.(codes := after.codes));
    NewRowsAreUnpublished(w.relay, after.outbox);
  }

  lemma ChangeKeepsInv(w: World, e: Event)
    requires Inv(w) && Commits(w, e) && e.r.ChangeContact?
    ensures Inv(Serve(w, true, e))
  {
    assert e.r.change.kind == "email" || e.r.change.kind == "phone";
    hide ChangeBody, Entries, Wanting, Registrations, Proceeds, ChangeFields;
    ChangeCommits(w.db, e.r, e.entry, e.fails);
    var after := ChangeBody(w.db, true, e.r, e.entry, e.fails).value;
    AppendCounts(w.db, after, e.entry, EVENT_MAGIC_CODE, ChangeFields(e.r.change));
    ChangeCounts(w.db, e.r.change);
    WantingReads(after, w.db.(changes := after.changes));
    NewRowsAreUnpublished(w.relay, after.outbox);
  }

  lemma RegisterKeepsInv(w: World, e: Event)
    requires Inv(w) && Commits(w, e) && e.r.Register?
    ensures Inv(Serve(w, true, e))
  {
    hide RegisterBody, Entries, Wanting, Registrations, Proceeds, RegisteredFields;
    var r := e.r;
    RegisteredNamesUser(r);
    RegisterCommits(w.db, r, e.entry, e.fails);
    var after := RegisterBody(w.db, true, r, e.entry, e.fails).value;
    AppendCounts(w.db, after, e.entry, EVENT_REGISTERED,
                 RegisteredFields(r.userID, r.email, r.phone, r.displayName));
    WantingReads(after, w.db);
    NewRowsAreUnpublished(w.relay, after.outbox);
  }

  lemma RegisteredNamesUser(r: Request)
    requires r.Register?
    ensures var f := RegisteredFields(r.userID, r.email, r.phone, r.displayName);
            "user_id" in f && f["user_id"] == r.userID
  {
  }

  // ---------------------------------------------------------------- exactly when a transaction commits

  predicate FindsUser(db: Db, email: string, phone: string) {
    exists id <- db.users ::
      (email != "" && db.users[id].email == email) || (email == "" && db.users[id].phone == phone)
  }

  /** One new unpublished entry with this id and name, or none if there is no outbox. */
  predicate OneEntry(db: Db, after: Db, outbox: bool, entry: Id, name: string) {
    if !outbox then after.outbox == db.outbox
    else
      && |after.outbox| == |db.outbox| + 1 && after.outbox[..|db.outbox|] == db.outbox
      && var r := after.outbox[|db.outbox|]; r.id == entry && r.name == name && !r.published
  }

  /** A login request leaves one new code and its entry exactly if the user is found and every write succeeds, and
      changes nothing otherwise. */
  lemma LoginCommitsIff(db: Db, outbox: bool, r: Request, entry: Id, fails: set<nat>, lookupFails: bool)
    requires r.RequestLogin?
    ensures var after := Committed(db, outbox, r, entry, fails, lookupFails);
            if !lookupFails && FindsUser(db, r.email, r.phone) && 0 !in fails
               && (outbox ==> 1 !in fails && entry !in Ids(db.outbox))
            then
              && after == db.(codes := db.codes + [MagicCode(r.code, r.email, r.phone)], outbox := after.outbox)
              && OneEntry(db, after, outbox, entry, "notifier.magic_code_requested")
              && (outbox ==> var e := after.outbox[|db.outbox|];
                             Says(e, "code", r.code) && Says(e, "email", r.email) && Says(e, "phone", r.phone))
            else after == db
  {
  }

  lemma ChangeCommitsIff(db: Db, outbox: bool, r: Request, entry: Id, fails: set<nat>)
    requires r.ChangeContact?
    ensures var c, after := r.change, Committed(db, outbox, r, entry, fails, false);
            if c.newValue != "" && (c.kind == "email" || c.kind == "phone") && 0 !in fails
               && c.userID in db.users && (forall d <- db.changes :: d.id != c.id)
               && (outbox ==> 1 !in fails && entry !in Ids(db.outbox))
            then
              && after == db.(changes := db.changes + [c], outbox := after.outbox)
              && OneEntry(db, after, outbox, entry, "notifier.magic_code_requested")
              && (outbox ==> var e := after.outbox[|db.outbox|]; Says(e, "code", c.code) && Says(e, c.kind, c.newValue))
            else after == db
  {
  }

  /** A registration leaves a new user, the role "user" and the entry exactly if no such user is found, id and
      contact are free and every write succeeds. */
  lemma RegisterCommitsIff(db: Db, outbox: bool, r: Request, entry: Id, fails: set<nat>, lookupFails: bool)
    requires r.Register? && db.roles.Keys <= db.users.Keys
    ensures var after := Committed(db, outbox, r, entry, fails, lookupFails);
            if (lookupFails || !FindsUser(db, r.email, r.phone)) && fails !! {0, 1, 2} && r.userID !in db.users
               && (forall id <- db.users :: (r.email == "" || db.users[id].email != r.email)
                                       && (r.phone == "" || db.users[id].phone != r.phone))
               && (outbox ==> 3 !in fails && entry !in Ids(db.outbox))
            then
              && after == db.(users := db.users[r.userID := User(r.email, r.phone, r.displayName)],
                              roles := db.roles[r.userID := {"user"}], outbox := after.outbox)
              && OneEntry(db, after, outbox, entry, "auth.user.registered")
            else after == db
  {
    hide LoginFields;
    assert {} + {ROLE_USER} == {ROLE_USER};
    var users := db.users[r.userID := User(r.email, r.phone, "")];
    assert users[r.userID := User(r.email, r.phone, r.displayName)]
        == db.users[r.userID := User(r.email, r.phone, r.displayName)];
  }

  /** A transaction that commits leaves every invariant in place; one that fails leaves everything in place. */
  lemma ServeKeepsInv(w: World, e: Event)
    requires Inv(w) && e.Requesting?
    ensures Inv(Serve(w, true, e))
  {
    hide Inv, Body, Proceeds;
    if Commits(w, e) {
      match e.r
      case RequestLogin(_, _, _) => LoginKeepsInv(w, e);
      case ChangeContact(_) => ChangeKeepsInv(w, e);
      case Register(_, _, _, _) => RegisterKeepsInv(w, e);
    } else {
      NothingCommitted(w, e);
    }
  }

  lemma NothingCommitted(w: World, e: Event)
    requires Inv(w) && e.Requesting? && !Commits(w, e)
    ensures Inv(Serve(w, true, e))
  {
    hide Inv, Body, Proceeds;
    assert w.db.outbox == w.relay.rows by { SameRows(w); }
    assert Serve(w, true, e) == w;
  }

  lemma SameRows(w: World)
    requires Inv(w)
    ensures w.db.outbox == w.relay.rows
  {
  }

  lemma NewRowsAreUnpublished(s: R.Relay, rows: seq<Row>)
    requires R.PublishedWereHanded(s) && |rows| == |s.rows| + 1 && rows[..|s.rows|] == s.rows
    requires !rows[|s.rows|].published
    ensures R.PublishedWereHanded(s.(rows := rows))
  {
    assert forall id :: R.WasHanded(s, id) ==> R.WasHanded(s.(rows := rows), id);
    assert rows == s.rows + [rows[|s.rows|]];
  }

  lemma StepKeepsInv(w: World, e: Event)
    requires Inv(w)
    ensures Inv(Step(true, w, e))
  {
    match e
    case Requesting(_, _, _, _) => ServeKeepsInv(w, e);
    case Relaying(re) => RelayKeepsInv(w, re);
    case DeletingCodes(codes) =>
      WithoutNone(w.db.changes);
      DeletionKeepsInv(w, codes, {});
    case DeletingChanges(changes) =>
      WithoutNone(w.db.codes);
      DeletionKeepsInv(w, {}, changes);
  }

  lemma {:induction false} RunKeepsInv(users: map<string, User>, roles: map<string, set<string>>, run: seq<Event>)
    requires roles.Keys <= users.Keys
    ensures Inv(After(true, Start(users, roles), run))
  {
    if run != [] {
      RunKeepsInv(users, roles, run[..|run| - 1]);
      StepKeepsInv(After(true, Start(users, roles), run[..|run| - 1]), run[|run| - 1]);
    }
  }

  // ---------------------------------------------------------------- row and event together

  /** Each magic code and each pending change has an outbox entry of its own, with its code and its recipient;
      every entry is still unpublished or was handed to the PublisherFunc; and each user committed by Register
      has exactly the role "user" and exactly one registered entry. */
  ghost predicate Together(w: World) {
    && (forall fields: Fields :: Wanting(w.db, fields) <= Entries(w.relay.rows, fields))
    && (forall r <- w.relay.rows | r.published :: R.WasHanded(w.relay, r.id))
    && (forall id <- w.registered ::
          && id in w.db.users && id in w.db.roles && w.db.roles[id] == {"user"}
          && Registrations(w.relay.rows, id) == 1)
  }

  /** With an outbox repository, rows and events stay together in every run. */
  lemma RowAndEventTogether(users: map<string, User>, roles: map<string, set<string>>, run: seq<Event>)
    requires roles.Keys <= users.Keys
    ensures Together(After(true, Start(users, roles), run))
  {
    hide After;
    RunKeepsInv(users, roles, run);
  }

  /** The entry has this value under this key. */
  predicate Says(r: Row, key: string, value: string) {
    r.payload.Object? && key in r.payload.fields && r.payload.fields[key] == value
  }

  /** What it means for one code in any run: some notification entry says this code, email and phone, and is on its
      way or was handed over. */
  lemma CodeOnItsWay(users: map<string, User>, roles: map<string, set<string>>, run: seq<Event>, c: MagicCode)
    requires roles.Keys <= users.Keys && c in After(true, Start(users, roles), run).db.codes
    ensures var s := After(true, Start(users, roles), run).relay;
            exists r <- s.rows ::
              && r.name == "notifier.magic_code_requested"
              && Says(r, "code", c.code) && Says(r, "email", c.email) && Says(r, "phone", c.phone)
              && (r.published ==> R.WasHanded(s, r.id))
  {
    hide After;
    var w := After(true, Start(users, roles), run);
    RowAndEventTogether(users, roles, run);
    var fields := LoginFields(c.code, c.email, c.phone);
    CountedExists(w.db.codes, AsksFor(fields), c);
    assert Wanting(w.db, fields) >= 1;
    var r := CountedWitness(w.relay.rows, IsEntry(EVENT_MAGIC_CODE, fields));
    assert r.payload.fields == fields;
  }

  /** And for one pending change: some notification entry says its code and its new email or phone. */
  lemma ChangeOnItsWay(users: map<string, User>, roles: map<string, set<string>>, run: seq<Event>, c: Change)
    requires roles.Keys <= users.Keys && c in After(true, Start(users, roles), run).db.changes
    ensures var s := After(true, Start(users, roles), run).relay;
            && (c.kind == "email" || c.kind == "phone")
            && exists r <- s.rows ::
                 && r.name == "notifier.magic_code_requested"
                 && Says(r, "code", c.code) && Says(r, c.kind, c.newValue)
                 && (r.published ==> R.WasHanded(s, r.id))
  {
    hide After;
    var w := After(true, Start(users, roles), run);
    RunKeepsInv(users, roles, run);
    RowAndEventTogether(users, roles, run);
    var fields := ChangeFields(c);
    CountedExists(w.db.changes, ChangeAsksFor(fields), c);
    assert Wanting(w.db, fields) >= 1;
    var r := CountedWitness(w.relay.rows, IsEntry(EVENT_MAGIC_CODE, fields));
    assert r.payload.fields == fields;
  }

  lemma {:induction false} CountedExists<T>(xs: seq<T>, p: T -> bool, x: T)
    requires x in xs && p(x)
    ensures Count(xs, p) >= 1
  {
    if xs[|xs| - 1] != x {
      CountedExists(xs[..|xs| - 1], p, x);
    }
  }

  lemma {:induction false} CountedWitness<T>(xs: seq<T>, p: T -> bool) returns (x: T)
    requires Count(xs, p) >= 1
    ensures x in xs && p(x)
  {
    if p(xs[|xs| - 1]) {
      return xs[|xs| - 1];
    }
    x := CountedWitness(xs[..|xs| - 1], p);
  }

  // ---------------------------------------------------------------- without an outbox repository

  lemma {:induction false} LengthBound(taken: set<string>) returns (n: nat)
    ensures forall s <- taken :: |s| < n
  {
    n := 0;
    if taken != {} {
      var s :| s in taken;
      var m := LengthBound(taken - {s});
      n := if m > |s| then m else |s| + 1;
    }
  }

  lemma FreshName(taken: set<string>) returns (id: string)
    ensures id !in taken
  {
    var n := LengthBound(taken);
    id := seq(n, _ => 'u');
  }

  /** The guarantee rests on the repository being configured: it holds in every run exactly then. With outboxRepo
      nil the first registration already leaves a user nobody hears of. */
  lemma TogetherIffOutboxConfigured(users: map<string, User>, roles: map<string, set<string>>, outbox: bool)
    requires roles.Keys <= users.Keys
    ensures (forall run :: Together(After(outbox, Start(users, roles), run))) <==> outbox
  {
    if outbox {
      forall run ensures Together(After(outbox, Start(users, roles), run)) {
        RowAndEventTogether(users, roles, run);
      }
    } else {
      var id := FreshName(users.Keys);
      UnheardOfUser(users, roles, id);
    }
  }

  lemma AfterOne(outbox: bool, w: World, e: Event)
    ensures After(outbox, w, [e]) == Step(outbox, w, e)
  {
    hide Step;
    assert [e][..0] == [];
    assert After(outbox, w, []) == w;
  }

  lemma UnheardOfUser(users: map<string, User>, roles: map<string, set<string>>, id: string)
    requires id !in users
    ensures !Together(After(false, Start(users, roles), [Requesting(Register(id, "", "", ""), 0, {}, true)]))
  {
    var w, e := Start(users, roles), Requesting(Register(id, "", "", ""), 0, {}, true);
    AfterOne(false, w, e);
    var t := Step(false, w, e);
    assert id in t.registered && t.relay.rows == [];
  }

  /** So does the first login of an existing user: a code that no entry carries. */
  lemma UntoldCode(users: map<string, User>, roles: map<string, set<string>>, id: string, code: string)
    requires id in users && users[id].email != ""
    ensures var e := Requesting(RequestLogin(code, users[id].email, ""), 0, {}, false);
            var w := After(false, Start(users, roles), [e]);
            var fields := LoginFields(code, users[id].email, "");
            Wanting(w.db, fields) == 1 && Entries(w.relay.rows, fields) == 0
  {
    var email := users[id].email;
    var w, e := Start(users, roles), Requesting(RequestLogin(code, email, ""), 0, {}, false);
    AfterOne(false, w, e);
    assert UserExists(w.db, email, "");
    var t := Step(false, w, e);
    assert t.db.codes == [MagicCode(code, email, "")] && t.db.changes == [];
    CodeCounts(w.db, MagicCode(code, email, ""));
  }
}
