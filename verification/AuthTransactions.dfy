/** The transactions of the auth service that write a row and an outbox entry together
    (modules/auth/internal/service/service.go), on the tables they touch.

    A transaction commits iff its body returns nil (repository.go, WithTx). `fails` holds the numbers of the
    writes that fail for reasons outside the model; the constraints of the schema are in the model. */
module AuthTransactions {
  import opened Wrappers
  import opened Outboxes

  const EVENT_MAGIC_CODE := "notifier.magic_code_requested"
  const EVENT_REGISTERED := "auth.user.registered"
  const ROLE_USER := "user"

  datatype MagicCode = MagicCode(code: string, email: string, phone: string)
  datatype Change = Change(id: string, userID: string, kind: string, newValue: string, code: string)
  datatype User = User(email: string, phone: string, displayName: string)

  datatype Db = Db(codes: seq<MagicCode>, changes: seq<Change>, users: map<string, User>,
                   roles: map<string, set<string>>, outbox: seq<Row>)

  /** Email and phone are unique where they are not empty (stored as NULL). */
  predicate ContactTaken(db: Db, email: string, phone: string) {
    exists id <- db.users ::
      (email != "" && db.users[id].email == email) || (phone != "" && db.users[id].phone == phone)
  }

  predicate UserExists(db: Db, email: string, phone: string) {
    exists id <- db.users :: if email != "" then db.users[id].email == email else db.users[id].phone == phone
  }

  // ---------------------------------------------------------------- the writes

  function CreateMagicCode(db: Db, code: string, email: string, phone: string): Option<Db> {
    Some(db.(codes := db.codes + [MagicCode(code, email, phone)]))
  }

  function CreatePendingContactChange(db: Db, c: Change): Option<Db> {
    if c.userID !in db.users || (exists d <- db.changes :: d.id == c.id) then None
    else Some(db.(changes := db.changes + [c]))
  }

  function CreateUser(db: Db, id: string, email: string, phone: string): Option<Db> {
    if id in db.users || ContactTaken(db, email, phone) then None
    else Some(db.(users := db.users[id := User(email, phone, "")]))
  }

  /** An UPDATE of a missing row is not an error. */
  function UpdateUserProfile(db: Db, id: string, displayName: string): Option<Db> {
    if id !in db.users then Some(db)
    else Some(db.(users := db.users[id := db.users[id].(displayName := displayName)]))
  }

  function AssignRole(db: Db, id: string, role: string): Option<Db> {
    if id !in db.users then None
    else
      var held := if id in db.roles then db.roles[id] else {};
      Some(db.(roles := db.roles[id := held + {role}]))
  }

  function StoreEvent(db: Db, id: Id, name: string, fields: map<string, string>): Option<Db> {
    var rows :- Stored(db.outbox, id, name, Object(fields));
    Some(db.(outbox := rows))
  }

  function Unless(fails: bool, written: Option<Db>): Option<Db> { if fails then None else written }

  // ---------------------------------------------------------------- the transaction bodies

  datatype Request =
    | RequestLogin(code: string, email: string, phone: string)
    | Register(userID: string, email: string, phone: string, displayName: string)
    | ChangeContact(change: Change)

  function LoginFields(code: string, email: string, phone: string): map<string, string> {
    map["email" := email, "phone" := phone, "code" := code]
  }

  function RegisteredFields(id: string, email: string, phone: string, name: string): map<string, string> {
    map["user_id" := id, "email" := email, "phone" := phone, "display_name" := name]
  }

  function ChangeFields(c: Change): map<string, string> { map[c.kind := c.newValue, "code" := c.code] }

  function LoginBody(db: Db, outbox: bool, r: Request, entry: Id, fails: set<nat>): Option<Db>
    requires r.RequestLogin?
  {
    var db1 :- Unless(0 in fails, CreateMagicCode(db, r.code, r.email, r.phone));
    if !outbox then Some(db1)
    else Unless(1 in fails, StoreEvent(db1, entry, EVENT_MAGIC_CODE, LoginFields(r.code, r.email, r.phone)))
  }

  function RegisterBody(db: Db, outbox: bool, r: Request, entry: Id, fails: set<nat>): Option<Db>
    requires r.Register?
  {
    var db1 :- Unless(0 in fails, CreateUser(db, r.userID, r.email, r.phone));
    var db2 :- Unless(1 in fails, UpdateUserProfile(db1, r.userID, r.displayName));
    var db3 :- Unless(2 in fails, AssignRole(db2, r.userID, ROLE_USER));
    if !outbox then Some(db3)
    else Unless(3 in fails, StoreEvent(db3, entry, EVENT_REGISTERED,
                                       RegisteredFields(r.userID, r.email, r.phone, r.displayName)))
  }

  /** ChangeEmail and ChangePhone, with kind "email" or "phone". */
  function ChangeBody(db: Db, outbox: bool, r: Request, entry: Id, fails: set<nat>): Option<Db>
    requires r.ChangeContact?
  {
    var db1 :- Unless(0 in fails, CreatePendingContactChange(db, r.change));
    if !outbox then Some(db1)
    else Unless(1 in fails, StoreEvent(db1, entry, EVENT_MAGIC_CODE, ChangeFields(r.change)))
  }

  /** Whether the request gets as far as its transaction: RequestLogin stops silently when the user is not
      found, Register when it is, and the changes when the new contact is empty. */
  predicate Proceeds(db: Db, r: Request, lookupFails: bool) {
    match r
    case RequestLogin(_, email, phone) => !lookupFails && UserExists(db, email, phone)
    case Register(_, email, phone, _) => lookupFails || !UserExists(db, email, phone)
    case ChangeContact(c) => c.newValue != "" && (c.kind == "email" || c.kind == "phone")
  }

  function Body(db: Db, outbox: bool, r: Request, entry: Id, fails: set<nat>): Option<Db> {
    match r
    case RequestLogin(_, _, _) => LoginBody(db, outbox, r, entry, fails)
    case Register(_, _, _, _) => RegisterBody(db, outbox, r, entry, fails)
    case ChangeContact(_) => ChangeBody(db, outbox, r, entry, fails)
  }

  function Committed(db: Db, outbox: bool, r: Request, entry: Id, fails: set<nat>, lookupFails: bool): Db {
    if !Proceeds(db, r, lookupFails) then db
    else
      var result := Body(db, outbox, r, entry, fails);
      if result.None? then db else result.value
  }

  // ---------------------------------------------------------------- the objects

  /** A running transaction. */
  class Tx {
    var db: Db

    constructor (db: Db)
      ensures this.db == db
    {
      this.db := db;
    }

    /** One statement of the transaction. */
    method Write(result: Option<Db>) returns (ok: bool)
      modifies this
      ensures ok == result.Some? && db == if ok then result.value else old(db)
    {
      if result.None? {
        return false;
      }
      db := result.value;
      return true;
    }
  }

  class AuthService {
    var db: Db
    /** Whether outboxRepo is not nil. */
    const outbox: bool

    constructor (db: Db, outbox: bool)
      ensures this.db == db && this.outbox == outbox
    {
      this.db, this.outbox := db, outbox;
    }

    method HandleLogin(r: Request, entry: Id, fails: set<nat>, lookupFails: bool) returns (committed: bool)
      requires r.RequestLogin?
      modifies this
      ensures db == Committed(old(db), outbox, r, entry, fails, lookupFails)
      ensures committed <==> Proceeds(old(db), r, lookupFails) && Body(old(db), outbox, r, entry, fails).Some?
    {
      if lookupFails || !UserExists(db, r.email, r.phone) {
        return false;
      }
      var tx := new Tx(db);
      var ok := tx.Write(Unless(0 in fails, CreateMagicCode(tx.db, r.code, r.email, r.phone)));
      if !ok {
        return false;
      }
      if outbox {
        ok := tx.Write(Unless(1 in fails,
                StoreEvent(tx.db, entry, EVENT_MAGIC_CODE, LoginFields(r.code, r.email, r.phone))));
        if !ok {
          return false;
        }
      }
      db := tx.db;
      return true;
    }

    method HandleRegister(r: Request, entry: Id, fails: set<nat>, lookupFails: bool) returns (committed: bool)
      requires r.Register?
      modifies this
      ensures db == Committed(old(db), outbox, r, entry, fails, lookupFails)
      ensures committed <==> Proceeds(old(db), r, lookupFails) && Body(old(db), outbox, r, entry, fails).Some?
    {
      if !lookupFails && UserExists(db, r.email, r.phone) {
        return false;
      }
      hide CreateUser, UpdateUserProfile, AssignRole, StoreEvent;
      var tx := new Tx(db);
      var ok := tx.Write(Unless(0 in fails, CreateUser(tx.db, r.userID, r.email, r.phone)));
      if !ok {
        return false;
      }
      ok := tx.Write(Unless(1 in fails, UpdateUserProfile(tx.db, r.userID, r.displayName)));
      if !ok {
        return false;
      }
      ok := tx.Write(Unless(2 in fails, AssignRole(tx.db, r.userID, ROLE_USER)));
      if !ok {
        return false;
      }
      if outbox {
        ok := tx.Write(Unless(3 in fails,
                StoreEvent(tx.db, entry, EVENT_REGISTERED,
                           RegisteredFields(r.userID, r.email, r.phone, r.displayName))));
        if !ok {
          return false;
        }
      }
      db := tx.db;
      return true;
    }

    method HandleChange(r: Request, entry: Id, fails: set<nat>) returns (committed: bool)
      requires r.ChangeContact? && (r.change.kind == "email" || r.change.kind == "phone")
      modifies this
      ensures db == Committed(old(db), outbox, r, entry, fails, false)
      ensures committed <==> Proceeds(old(db), r, false) && Body(old(db), outbox, r, entry, fails).Some?
    {
      if r.change.newValue == "" {
        return false;
      }
      var tx := new Tx(db);
      var ok := tx.Write(Unless(0 in fails, CreatePendingContactChange(tx.db, r.change)));
      if !ok {
        return false;
      }
      if outbox {
        ok := tx.Write(Unless(1 in fails, StoreEvent(tx.db, entry, EVENT_MAGIC_CODE, ChangeFields(r.change))));
        if !ok {
          return false;
        }
      }
      db := tx.db;
      return true;
    }
  }
}
