/** `config backup` and `config restore` over the whole database.

    A table is a map by id and a join table a set of pairs.  A backup holds, for each row of nine tables, the
    row together with the rows and join pairs that its preloads carry.  `FirstOrCreate` does nothing for an id
    that is present; otherwise it inserts the row, those carried rows whose ids are absent, and the carried pairs. */
module BackupRestore {
  import opened SecretCodec
  import opened BackupSecrets

  datatype Table = Host | User | Acl | HostGroup | UserGroup | SSHKey | UserKey | Setting | Session | Role

  datatype Key = Key(table: Table, id: nat)

  /** `attrs` stands for the columns that are copied as they are. */
  datatype Row =
    | HostRow(attrs: Text, password: Text, keyId: nat, hopId: nat)
    | KeyRow(attrs: Text, privKey: Text)
    | UserKeyRow(attrs: Text, userId: nat)
    | SessionRow(attrs: Text, userId: nat, hostId: nat)
    | PlainRow(attrs: Text)

  datatype Join = HostHostGroups | UserUserGroups | UserUserRoles | HostGroupAcls | UserGroupAcls

  datatype Pair = Pair(join: Join, a: nat, b: nat) {
    function First(): Key {
      Key(match join
          case HostHostGroups => Host
          case UserUserGroups => User
          case UserUserRoles => User
          case HostGroupAcls => HostGroup
          case UserGroupAcls => UserGroup, a)
    }

    function Second(): Key {
      Key(match join
          case HostHostGroups => HostGroup
          case UserUserGroups => UserGroup
          case UserUserRoles => Role
          case HostGroupAcls => Acl
          case UserGroupAcls => Acl, b)
    }

    predicate Touches(k: Key) {
      First() == k || Second() == k
    }
  }

  datatype Db = Db(rows: map<Key, Row>, pairs: set<Pair>) {
    /** Every row has the columns of its table. */
    ghost predicate Typed() {
      forall k | k in rows ::
        && (k.table.Host? <==> rows[k].HostRow?)
        && (k.table.SSHKey? <==> rows[k].KeyRow?)
        && (k.table.UserKey? <==> rows[k].UserKeyRow?)
        && (k.table.Session? <==> rows[k].SessionRow?)
    }

    /** A pair whose two rows exist. */
    predicate Linked(p: Pair) {
      p in pairs && p.First() in rows && p.Second() in rows
    }
  }

  // ---- backup -----------------------------------------------------------------------------------

  /** The join tables that the query of a table preloads. */
  function Preloads(t: Table): set<Join> {
    match t
    case Host => {HostHostGroups}
    case User => {UserUserGroups, UserUserRoles}
    case Acl => {UserGroupAcls, HostGroupAcls}
    case HostGroup => {HostGroupAcls, HostHostGroups}
    case UserGroup => {UserGroupAcls, UserUserGroups}
    case _ => {}
  }

  /** The rows that a row refers to by a preloaded foreign key; the hop of a host is not preloaded. */
  function Refers(row: Row): set<Key> {
    match row
    case HostRow(_, _, keyId, _) => {Key(SSHKey, keyId)}
    case UserKeyRow(_, userId) => {Key(User, userId)}
    case SessionRow(_, userId, hostId) => {Key(User, userId), Key(Host, hostId)}
    case _ => {}
  }

  /** Whether the query of table `t` preloads the rows of table `u` that refer to it. */
  predicate HasMany(t: Table, u: Table) {
    (t.User? && u.UserKey?) || (t.SSHKey? && u.Host?)
  }

  function CarriedPairs(db: Db, k: Key): set<Pair> {
    set p | p in db.pairs && db.Linked(p) && p.Touches(k) && p.join in Preloads(k.table)
  }

  ghost predicate Carries(db: Db, k: Key, j: Key)
    requires k in db.rows && j in db.rows
  {
    || (j != k && exists p :: p in CarriedPairs(db, k) && p.Touches(j))
    || j in Refers(db.rows[k])
    || (HasMany(k.table, j.table) && k in Refers(db.rows[j]))
  }

  /** One element of a list of the backup. */
  datatype Entry = Entry(key: Key, row: Row, nested: map<Key, Row>, pairs: set<Pair>)

  ghost function EntryOf(db: Db, k: Key): Entry
    requires k in db.rows
  {
    Entry(k, db.rows[k], map j | j in db.rows && Carries(db, k, j) :: db.rows[j], CarriedPairs(db, k))
  }

  /** How a command is run: the cipher, the server's key, `--decrypt`, and the random vectors it draws. */
  datatype Codec = Codec(aes: Aes, key: Text, decrypt: bool, iv: Key -> Block)

  /** Decrypts the secret of a row and, without `--decrypt`, encrypts it again. */
  function Recode(c: Codec, k: Key, row: Row): Row
    requires ServerKey(c.key)
  {
    match row
    case HostRow(_, password, _, _) =>
      row.(password := RecodePassword(c.aes, c.key, c.iv(k), c.decrypt, password).value)
    case KeyRow(_, privKey) => row.(privKey := RecodeKey(c.aes, c.key, c.iv(k), c.decrypt, privKey).value)
    case _ => row
  }

  function Recoded(c: Codec, e: Entry): Entry
    requires ServerKey(c.key)
  {
    e.(row := Recode(c, e.key, e.row))
  }

  datatype Config = Config(
    keys: seq<Entry>, hosts: seq<Entry>, userKeys: seq<Entry>, users: seq<Entry>, userGroups: seq<Entry>,
    hostGroups: seq<Entry>, acls: seq<Entry>, settings: seq<Entry>, sessions: seq<Entry>)
  {
    function List(t: Table): seq<Entry> {
      match t
      case Host => hosts
      case User => users
      case Acl => acls
      case HostGroup => hostGroups
      case UserGroup => userGroups
      case SSHKey => keys
      case UserKey => userKeys
      case Setting => settings
      case Session => sessions
      case Role => []
    }
  }

  ghost predicate Listed(es: seq<Entry>, k: Key) {
    exists e :: e in es && e.key == k
  }

  /** `cfg` is a backup of `db`: each list holds the entries of its table in any order, own secrets recoded,
      those of nested rows as stored. */
  ghost predicate IsBackup(cfg: Config, db: Db, c: Codec)
    requires ServerKey(c.key)
  {
    forall t: Table | !t.Role? :: Saves(cfg.List(t), db, c, t)
  }

  ghost predicate Saves(es: seq<Entry>, db: Db, c: Codec, t: Table)
    requires ServerKey(c.key)
  {
    && (forall e | e in es :: e.key.table == t && e.key in db.rows && e == Recoded(c, EntryOf(db, e.key)))
    && (forall k | k in db.rows && k.table == t :: Listed(es, k))
  }

  // ---- restore ----------------------------------------------------------------------------------

  function FirstOrCreate(db: Db, e: Entry): Db {
    if e.key in db.rows then db
    else Db((e.nested + db.rows)[e.key := e.row], db.pairs + e.pairs)
  }

  function Fold(db: Db, es: seq<Entry>): Db
    decreases |es|
  {
    if es == [] then db else Fold(FirstOrCreate(db, es[0]), es[1..])
  }

  /** The entries in the order in which restore creates them, with the secrets of hosts and keys recoded. */
  function Recodes(c: Codec, es: seq<Entry>): (r: seq<Entry>)
    requires ServerKey(c.key)
    ensures |r| == |es|
    ensures forall i | 0 <= i < |es| :: r[i] == Recoded(c, es[i])
  {
    if es == [] then [] else [Recoded(c, es[0])] + Recodes(c, es[1..])
  }

  /** The list that the restore runs through for table `t`. */
  function Input(cfg: Config, c: Codec, t: Table): seq<Entry>
    requires ServerKey(c.key)
  {
    if t.Host? || t.SSHKey? then Recodes(c, cfg.List(t)) else cfg.List(t)
  }

  /** The loops over hosts, users and ACLs. */
  function FirstLoops(cfg: Config, c: Codec): Db
    requires ServerKey(c.key)
  {
    Fold(Fold(Fold(Db(map[], {}), Input(cfg, c, Host)), Input(cfg, c, User)), Input(cfg, c, Acl))
  }

  /** The other loops, in their order. */
  function LaterLoops(d: Db, cfg: Config, c: Codec): Db
    requires ServerKey(c.key)
  {
    var d4 := Fold(d, Input(cfg, c, HostGroup));
    var d5 := Fold(d4, Input(cfg, c, UserGroup));
    var d6 := Fold(d5, Input(cfg, c, SSHKey));
    var d7 := Fold(d6, Input(cfg, c, UserKey));
    var d8 := Fold(d7, Input(cfg, c, Setting));
    Fold(d8, Input(cfg, c, Session))
  }

  /** The database after a restore, whatever it held before. */
  function Restored(cfg: Config, c: Codec): Db
    requires ServerKey(c.key)
  {
    LaterLoops(FirstLoops(cfg, c), cfg, c)
  }

  /** The database of the server, with the commands that empty and refill it. */
  class Database {
    var db: Db

    constructor (initial: Db)
      ensures db == initial
    {
      db := initial;
    }

    method FirstOrCreateAll(es: seq<Entry>)
      modifies this
      ensures db == Fold(old(db), es)
    {
      var i := 0;
      while i < |es|
        invariant 0 <= i <= |es|
        invariant Fold(db, es[i..]) == Fold(old(db), es)
      {
        var e := es[i];
        if e.key !in db.rows {
          db := Db((e.nested + db.rows)[e.key := e.row], db.pairs + e.pairs);
        }
        assert es[i..][1..] == es[i + 1..];
        i := i + 1;
      }
    }

    /** The same with the secret of each entry decrypted and, without `--decrypt`, encrypted again first. */
    method RecodeAndCreateAll(es: seq<Entry>, c: Codec)
      requires ServerKey(c.key)
      modifies this
      ensures db == Fold(old(db), Recodes(c, es))
    {
      var i := 0;
      while i < |es|
        invariant 0 <= i <= |es|
        invariant Fold(db, Recodes(c, es[i..])) == Fold(old(db), Recodes(c, es))
      {
        var e := Recoded(c, es[i]);
        if e.key !in db.rows {
          db := Db((e.nested + db.rows)[e.key := e.row], db.pairs + e.pairs);
        }
        assert es[i..][1..] == es[i + 1..];
        i := i + 1;
      }
    }

    /** The loop of one table. */
    method CreateList(cfg: Config, c: Codec, t: Table)
      requires ServerKey(c.key)
      modifies this
      ensures db == Fold(old(db), Input(cfg, c, t))
    {
      if t.Host? || t.SSHKey? {
        RecodeAndCreateAll(cfg.List(t), c);
      } else {
        FirstOrCreateAll(cfg.List(t));
      }
    }

    /** `config restore`; without `--confirm` nothing changes. */
    method Restore(cfg: Config, c: Codec, confirm: bool) returns (ok: bool)
      requires ServerKey(c.key)
      modifies this
      ensures ok <==> confirm
      ensures db == if confirm then Restored(cfg, c) else old(db)
    {
      if !confirm {
        return false;
      }
      db := Db(map[], {});
      CreateList(cfg, c, Host);
      CreateList(cfg, c, User);
      CreateList(cfg, c, Acl);
      CreateList(cfg, c, HostGroup);
      CreateList(cfg, c, UserGroup);
      CreateList(cfg, c, SSHKey);
      CreateList(cfg, c, UserKey);
      CreateList(cfg, c, Setting);
      CreateList(cfg, c, Session);
      ok := true;
    }
  }
}
