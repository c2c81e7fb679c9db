/** Restoring a backup gives back the database, less what no list of the backup carries. */
module RestoreProofs {
  import opened SecretCodec
  import opened BackupSecrets
  import opened BackupRestore

  // ---- what a backup carries --------------------------------------------------------------------------

  /** The entry of a row has all the join pairs of that row whose two rows exist. */
  lemma CarriesAllPairs(db: Db, k: Key)
    requires !k.table.Role?
    ensures CarriedPairs(db, k) == set p | p in db.pairs && db.Linked(p) && p.Touches(k)
  {
  }

  /** Apart from roles and sessions, which nothing carries back, two rows carry each other or neither does. */
  lemma CarriesBothWays(db: Db, k: Key, j: Key)
    requires db.Typed() && k in db.rows && j in db.rows
    requires !k.table.Role? && !j.table.Role? && !k.table.Session? && !j.table.Session?
    ensures Carries(db, k, j) <==> Carries(db, j, k)
  {
    CarriesAllPairs(db, k);
    CarriesAllPairs(db, j);
    RefersOnly(db, k, j);
    RefersOnly(db, j, k);
    forall p | p in CarriedPairs(db, k) && p.Touches(j)
      ensures p in CarriedPairs(db, j) && p.Touches(k)
    {
    }
    forall p | p in CarriedPairs(db, j) && p.Touches(k)
      ensures p in CarriedPairs(db, k) && p.Touches(j)
    {
    }
  }

  /** The foreign keys that are followed, by table. */
  lemma RefersOnly(db: Db, k: Key, j: Key)
    requires db.Typed() && k in db.rows && j in db.rows
    ensures j in Refers(db.rows[k]) <==>
              || (k.table.Host? && j == Key(SSHKey, db.rows[k].keyId))
              || (k.table.UserKey? && j == Key(User, db.rows[k].userId))
              || (k.table.Session? && (j == Key(User, db.rows[k].userId) || j == Key(Host, db.rows[k].hostId)))
  {
  }

  // ---- what a restored backup is ------------------------------------------------------------------

  /** A role survives only if some user has it; every other row has a list of its own. */
  ghost predicate Kept(db: Db, k: Key) {
    k in db.rows && (k.table.Role? ==> exists p :: db.Linked(p) && p.join.UserUserRoles? && p.Second() == k)
  }

  /** Whether a host refers to the key: then the key is first inserted with the host, as it was stored. */
  ghost predicate Carried(db: Db, k: Key) {
    exists h :: h in db.rows && h.table.Host? && k in Refers(db.rows[h])
  }

  /** The restored row: own secrets are recoded by both commands, unless the row came in with a host. */
  ghost function TargetRow(db: Db, saved: Codec, loaded: Codec, k: Key): Row
    requires k in db.rows && ServerKey(saved.key) && ServerKey(loaded.key)
  {
    if k.table.SSHKey? && Carried(db, k) then db.rows[k] else Recode(loaded, k, Recode(saved, k, db.rows[k]))
  }

  ghost function Target(db: Db, saved: Codec, loaded: Codec): Db
    requires ServerKey(saved.key) && ServerKey(loaded.key)
  {
    Db(map k | k in db.rows && Kept(db, k) :: TargetRow(db, saved, loaded, k),
       set p | p in db.pairs && db.Linked(p))
  }

  // ---- the invariant of the restore -----------------------------------------------------------------

  ghost predicate Sub(d: Db, t: Db) {
    && (forall k | k in d.rows :: k in t.rows && d.rows[k] == t.rows[k])
    && d.pairs <= t.pairs
  }

  /** The tables whose entries are inserted whole, because nothing inserts their rows earlier. */
  predicate Leads(t: Table) {
    t.Host? || t.User? || t.Acl?
  }

  ghost predicate WholeAt(d: Db, src: Db, k: Key)
    requires k in src.rows
  {
    && CarriedPairs(src, k) <= d.pairs
    && forall j | j in src.rows && Carries(src, k, j) :: j in d.rows
  }

  /** What every step of the restore keeps. */
  ghost predicate Good(d: Db, src: Db, t: Db) {
    && Sub(d, t)
    && forall k | k in d.rows && Leads(k.table) :: k in src.rows && WholeAt(d, src, k)
  }

  ghost predicate Has(d: Db, src: Db, t: Table) {
    forall k | k in src.rows && k.table == t :: k in d.rows
  }

  ghost predicate LeadersIn(d: Db, src: Db) {
    Has(d, src, Host) && Has(d, src, User) && Has(d, src, Acl)
  }

  /** `e` is what the restore hands to `FirstOrCreate` for a row of `src`. */
  ghost predicate Fits(e: Entry, src: Db, saved: Codec, loaded: Codec)
    requires ServerKey(saved.key) && ServerKey(loaded.key)
  {
    && e.key in src.rows && !e.key.table.Role?
    && e.row == Recode(loaded, e.key, Recode(saved, e.key, src.rows[e.key]))
    && e.nested == EntryOf(src, e.key).nested
    && e.pairs == CarriedPairs(src, e.key)
  }

  /** A row that is carried by a host, user or ACL is restored as it was stored. */
  lemma NestedAsStored(src: Db, saved: Codec, loaded: Codec, k: Key, j: Key)
    requires src.Typed() && ServerKey(saved.key) && ServerKey(loaded.key)
    requires k in src.rows && j in src.rows && Leads(k.table) && Carries(src, k, j)
    ensures Kept(src, j) && TargetRow(src, saved, loaded, j) == src.rows[j]
  {
    if j.table.Role? {
      var p :| p in CarriedPairs(src, k) && p.Touches(j);
      assert src.Linked(p);
    } else if j.table.SSHKey? {
      assert k.table.Host? && j in Refers(src.rows[k]);
      assert Carried(src, j);
    }
  }

  /** Rows that are carried by any other entry, and the key of an entry of a key that a host uses, are there
      already when that entry is reached. */
  lemma NestedThere(d: Db, src: Db, t: Db, k: Key, j: Key)
    requires src.Typed() && Good(d, src, t) && LeadersIn(d, src)
    requires k in src.rows && j in src.rows && !Leads(k.table) && Carries(src, k, j)
    ensures j in d.rows
  {
  }

  /** What a newly inserted nested row must be. */
  ghost predicate NewNested(d: Db, e: Entry, t: Db) {
    forall j | j in e.nested && j !in d.rows :: j in t.rows && t.rows[j] == e.nested[j] && !Leads(j.table)
  }

  lemma NestedFits(d: Db, e: Entry, src: Db, saved: Codec, loaded: Codec)
    requires src.Typed() && ServerKey(saved.key) && ServerKey(loaded.key)
    requires Fits(e, src, saved, loaded) && Good(d, src, Target(src, saved, loaded))
    requires Leads(e.key.table) || LeadersIn(d, src)
    ensures NewNested(d, e, Target(src, saved, loaded))
  {
    forall j | j in e.nested && j !in d.rows
      ensures Kept(src, j) && TargetRow(src, saved, loaded, j) == e.nested[j] && !Leads(j.table)
    {
      assert Carries(src, e.key, j);
      if Leads(e.key.table) {
        NestedAsStored(src, saved, loaded, e.key, j);
        LeadersCarryNoLeader(src, e.key, j);
      } else {
        NestedThere(d, src, Target(src, saved, loaded), e.key, j);
      }
    }
  }

  lemma LeadersCarryNoLeader(src: Db, k: Key, j: Key)
    requires src.Typed() && k in src.rows && j in src.rows && Leads(k.table) && Carries(src, k, j)
    ensures !Leads(j.table)
  {
    if j !in Refers(src.rows[k]) && !(HasMany(k.table, j.table) && k in Refers(src.rows[j])) {
      var p :| p in CarriedPairs(src, k) && p.Touches(j);
      assert j != k;
    }
  }

  lemma InsertSub(d: Db, e: Entry, t: Db)
    requires Sub(d, t) && NewNested(d, e, t) && e.pairs <= t.pairs
    requires e.key in t.rows && t.rows[e.key] == e.row
    ensures Sub(FirstOrCreate(d, e), t)
  {
  }

  lemma InsertWhole(d: Db, e: Entry, src: Db, t: Db)
    requires Good(d, src, t) && NewNested(d, e, t) && e.key in src.rows && e.key !in d.rows
    requires e.nested == EntryOf(src, e.key).nested && e.pairs == CarriedPairs(src, e.key)
    ensures var d' := FirstOrCreate(d, e);
            forall k | k in d'.rows && Leads(k.table) :: k in src.rows && WholeAt(d', src, k)
  {
    var d' := FirstOrCreate(d, e);
    assert d.rows.Keys <= d'.rows.Keys && d.pairs <= d'.pairs;
    forall k | k in d'.rows && Leads(k.table)
      ensures k in src.rows && WholeAt(d', src, k)
    {
      if k == e.key {
        assert forall j | j in src.rows && Carries(src, k, j) :: j in e.nested;
      } else {
        assert k in d.rows;
        assert WholeAt(d, src, k);
      }
    }
  }

  lemma StepGood(d: Db, e: Entry, src: Db, saved: Codec, loaded: Codec)
    requires src.Typed() && ServerKey(saved.key) && ServerKey(loaded.key)
    requires Fits(e, src, saved, loaded) && Good(d, src, Target(src, saved, loaded))
    requires Leads(e.key.table) || LeadersIn(d, src)
    ensures Good(FirstOrCreate(d, e), src, Target(src, saved, loaded))
    ensures e.key in FirstOrCreate(d, e).rows && d.rows.Keys <= FirstOrCreate(d, e).rows.Keys
  {
    var t, k := Target(src, saved, loaded), e.key;
    if k !in d.rows {
      NestedFits(d, e, src, saved, loaded);
      assert TargetRow(src, saved, loaded, k) == e.row by {
        if k.table.SSHKey? && Carried(src, k) {
          CarriedIsThere(d, src, t, k);
        }
      }
      InsertSub(d, e, t);
      InsertWhole(d, e, src, t);
    }
  }

  lemma CarriedIsThere(d: Db, src: Db, t: Db, k: Key)
    requires src.Typed() && Good(d, src, t) && LeadersIn(d, src) && k in src.rows && Carried(src, k)
    ensures k in d.rows
  {
    var h :| h in src.rows && h.table.Host? && k in Refers(src.rows[h]);
    assert Carries(src, h, k);
  }

  /** One loop of the restore. */
  lemma {:induction false} Phase(d: Db, es: seq<Entry>, t: Table, src: Db, saved: Codec, loaded: Codec)
    requires src.Typed() && ServerKey(saved.key) && ServerKey(loaded.key)
    requires Good(d, src, Target(src, saved, loaded))
    requires forall e | e in es :: e.key.table == t && Fits(e, src, saved, loaded)
    requires Leads(t) || LeadersIn(d, src)
    ensures var d' := Fold(d, es);
            && Good(d', src, Target(src, saved, loaded)) && d.rows.Keys <= d'.rows.Keys
            && forall e | e in es :: e.key in d'.rows
    decreases |es|
  {
    if es != [] {
      var d1 := FirstOrCreate(d, es[0]);
      StepGood(d, es[0], src, saved, loaded);
      Phase(d1, es[1..], t, src, saved, loaded);
      assert forall e | e in es :: e == es[0] || e in es[1..];
    }
  }

  lemma InputFits(cfg: Config, src: Db, saved: Codec, loaded: Codec, t: Table)
    requires src.Typed() && ServerKey(saved.key) && ServerKey(loaded.key) && !t.Role?
    requires IsBackup(cfg, src, saved)
    ensures forall e | e in Input(cfg, loaded, t) :: e.key.table == t && Fits(e, src, saved, loaded)
    ensures forall k | k in src.rows && k.table == t :: Listed(Input(cfg, loaded, t), k)
  {
    var es, out := cfg.List(t), Input(cfg, loaded, t);
    assert Saves(es, src, saved, t);
    forall e | e in out
      ensures e.key.table == t && Fits(e, src, saved, loaded)
    {
      var i :| 0 <= i < |out| && out[i] == e;
      assert es[i] in es;
    }
    forall k | k in src.rows && k.table == t
      ensures Listed(out, k)
    {
      assert Listed(es, k);
      var e :| e in es && e.key == k;
      var i :| 0 <= i < |es| && es[i] == e;
      assert out[i] in out && out[i].key == k;
    }
  }

  /** The tables whose loops are over. */
  ghost predicate HasAll(d: Db, src: Db, done: set<Table>) {
    forall t | t in done :: Has(d, src, t)
  }

  lemma Loop(d: Db, cfg: Config, t: Table, done: set<Table>, src: Db, saved: Codec, loaded: Codec)
    requires src.Typed() && ServerKey(saved.key) && ServerKey(loaded.key) && !t.Role?
    requires IsBackup(cfg, src, saved)
    requires Good(d, src, Target(src, saved, loaded)) && HasAll(d, src, done)
    requires Leads(t) || {Host, User, Acl} <= done
    ensures var d' := Fold(d, Input(cfg, loaded, t));
            Good(d', src, Target(src, saved, loaded)) && HasAll(d', src, done + {t})
  {
    var es := Input(cfg, loaded, t);
    InputFits(cfg, src, saved, loaded, t);
    if !Leads(t) {
      assert Host in done && User in done && Acl in done;
    }
    Phase(d, es, t, src, saved, loaded);
    var d' := Fold(d, es);
    forall k | k in src.rows && k.table == t
      ensures k in d'.rows
    {
      assert Listed(es, k);
    }
    assert Has(d', src, t);
    forall u | u in done + {t}
      ensures Has(d', src, u)
    {
      assert u != t ==> Has(d, src, u);
    }
  }

  lemma CompleteRows(d: Db, src: Db, saved: Codec, loaded: Codec)
    requires src.Typed() && ServerKey(saved.key) && ServerKey(loaded.key)
    requires Good(d, src, Target(src, saved, loaded))
    requires forall t: Table | !t.Role? :: Has(d, src, t)
    ensures d.rows == Target(src, saved, loaded).rows
  {
    var t := Target(src, saved, loaded);
    forall k | k in t.rows
      ensures k in d.rows
    {
      if k.table.Role? {
        var p :| src.Linked(p) && p.join.UserUserRoles? && p.Second() == k;
        var u := p.First();
        assert Has(d, src, User) && WholeAt(d, src, u);
        assert p in CarriedPairs(src, u) && p.Touches(k) && Carries(src, u, k);
      } else {
        assert Has(d, src, k.table);
      }
    }
    assert d.rows.Keys == t.rows.Keys;
  }

  /** Every join pair has a host, user or ACL on one side, which carries it. */
  lemma CompletePairs(d: Db, src: Db, t: Db)
    requires Good(d, src, t) && LeadersIn(d, src)
    ensures forall p | src.Linked(p) :: p in d.pairs
  {
    forall p | src.Linked(p)
      ensures p in d.pairs
    {
      var u := if Leads(p.First().table) then p.First() else p.Second();
      assert u in d.rows && WholeAt(d, src, u);
      assert p in CarriedPairs(src, u);
    }
  }

  lemma FirstLoopsGood(cfg: Config, src: Db, saved: Codec, loaded: Codec)
    requires src.Typed() && ServerKey(saved.key) && ServerKey(loaded.key)
    requires IsBackup(cfg, src, saved)
    ensures Good(FirstLoops(cfg, loaded), src, Target(src, saved, loaded))
    ensures HasAll(FirstLoops(cfg, loaded), src, {Host, User, Acl})
  {
    var d0 := Db(map[], {});
    Loop(d0, cfg, Host, {}, src, saved, loaded);
    var d1 := Fold(d0, Input(cfg, loaded, Host));
    Loop(d1, cfg, User, {Host}, src, saved, loaded);
    var d2 := Fold(d1, Input(cfg, loaded, User));
    Loop(d2, cfg, Acl, {Host, User}, src, saved, loaded);
  }

  lemma LaterLoopsGood(d: Db, cfg: Config, src: Db, saved: Codec, loaded: Codec)
    requires src.Typed() && ServerKey(saved.key) && ServerKey(loaded.key)
    requires IsBackup(cfg, src, saved)
    requires Good(d, src, Target(src, saved, loaded)) && HasAll(d, src, {Host, User, Acl})
    ensures Good(LaterLoops(d, cfg, loaded), src, Target(src, saved, loaded))
    ensures forall t: Table | !t.Role? :: Has(LaterLoops(d, cfg, loaded), src, t)
  {
    var done := {Host, User, Acl};
    Loop(d, cfg, HostGroup, done, src, saved, loaded);
    var d4 := Fold(d, Input(cfg, loaded, HostGroup));
    done := done + {HostGroup};
    Loop(d4, cfg, UserGroup, done, src, saved, loaded);
    var d5 := Fold(d4, Input(cfg, loaded, UserGroup));
    done := done + {UserGroup};
    Loop(d5, cfg, SSHKey, done, src, saved, loaded);
    var d6 := Fold(d5, Input(cfg, loaded, SSHKey));
    done := done + {SSHKey};
    Loop(d6, cfg, UserKey, done, src, saved, loaded);
    var d7 := Fold(d6, Input(cfg, loaded, UserKey));
    done := done + {UserKey};
    Loop(d7, cfg, Setting, done, src, saved, loaded);
    var d8 := Fold(d7, Input(cfg, loaded, Setting));
    done := done + {Setting};
    Loop(d8, cfg, Session, done, src, saved, loaded);
    assert forall t: Table | !t.Role? :: t in done + {Session};
  }

  /** Restoring any backup of a database, with any flags, gives its target: every row but the roles that no
      user holds, every join pair but the dangling ones, and the secrets recoded as stated. */
  lemma RestoreGivesTarget(cfg: Config, src: Db, saved: Codec, loaded: Codec)
    requires src.Typed() && ServerKey(saved.key) && ServerKey(loaded.key)
    requires IsBackup(cfg, src, saved)
    ensures Restored(cfg, loaded) == Target(src, saved, loaded)
  {
    FirstLoopsGood(cfg, src, saved, loaded);
    LaterLoopsGood(FirstLoops(cfg, loaded), cfg, src, saved, loaded);
    var d := Restored(cfg, loaded);
    CompleteRows(d, src, saved, loaded);
    CompletePairs(d, src, Target(src, saved, loaded));
  }

  // ---- what the bastion sees ------------------------------------------------------------------------

  function OpenRow(aes: Aes, key: Text, row: Row): Row {
    match row
    case HostRow(_, password, _, _) => row.(password := OpenPassword(aes, key, password))
    case KeyRow(_, privKey) => row.(privKey := OpenKey(aes, key, privKey))
    case _ => row
  }

  /** Whether the secret of a row could be taken for ciphertext once it is plain. */
  predicate Ambiguous(aes: Aes, key: Text, row: Row) {
    match row
    case HostRow(_, password, _, _) => key != [] && LooksEncrypted(OpenPassword(aes, key, password))
    case KeyRow(_, privKey) => key != [] && LooksEncrypted(OpenKey(aes, key, privKey))
    case _ => false
  }

  /** A key that is PEM text when it is used is never ambiguous, so `--decrypt` can only harm passwords. */
  lemma PemUnambiguous(aes: Aes, key: Text, row: Row)
    requires ServerKey(key) && row.KeyRow? && PEM_PREFIX <= OpenKey(aes, key, row.privKey)
    ensures !Ambiguous(aes, key, row)
  {
    if key != [] {
      PemUnchanged(aes, key, OpenKey(aes, key, row.privKey));
      SafeDecryptUnchanged(aes, key, OpenKey(aes, key, row.privKey));
    }
  }

  /** The database without what no backup carries, and with the secrets that are seen at use. */
  ghost function View(db: Db, aes: Aes, key: Text): Db {
    Db(map k | k in db.rows && Kept(db, k) :: OpenRow(aes, key, db.rows[k]),
       set p | p in db.pairs && db.Linked(p))
  }

  ghost predicate SameServer(a: Codec, b: Codec) {
    a.aes == b.aes && a.key == b.key && ServerKey(a.key)
  }

  lemma RecodeTwice(saved: Codec, loaded: Codec, k: Key, row: Row)
    requires SameServer(saved, loaded)
    ensures var twice := Recode(loaded, k, Recode(saved, k, row));
            OpenRow(saved.aes, saved.key, twice) == OpenRow(saved.aes, saved.key, row)
            <==> (!saved.decrypt && !loaded.decrypt) || !Ambiguous(saved.aes, saved.key, row)
  {
    match row
    case HostRow(_, password, _, _) =>
      PasswordSurvives(saved.aes, saved.key, saved.iv(k), loaded.iv(k), saved.decrypt, loaded.decrypt, password);
    case KeyRow(_, privKey) =>
      KeySurvives(saved.aes, saved.key, saved.iv(k), loaded.iv(k), saved.decrypt, loaded.decrypt, privKey);
    case _ =>
  }

  lemma TargetKeeps(src: Db, saved: Codec, loaded: Codec, k: Key)
    requires ServerKey(saved.key) && ServerKey(loaded.key)
    ensures Kept(Target(src, saved, loaded), k) <==> Kept(src, k)
  {
    var t := Target(src, saved, loaded);
    if Kept(src, k) && k.table.Role? {
      var p :| src.Linked(p) && p.join.UserUserRoles? && p.Second() == k;
      assert t.Linked(p);
    }
    if Kept(t, k) && k.table.Role? {
      var p :| t.Linked(p) && p.join.UserUserRoles? && p.Second() == k;
      assert src.Linked(p);
    }
  }

  lemma TargetLinks(src: Db, saved: Codec, loaded: Codec, p: Pair)
    requires ServerKey(saved.key) && ServerKey(loaded.key)
    ensures Target(src, saved, loaded).Linked(p) <==> src.Linked(p)
  {
    if src.Linked(p) && p.join.UserUserRoles? {
      assert Kept(src, p.Second());
    }
  }

  /** The secrets that both commands recode; the key that a host uses is not among them, because it is
      restored with the host, as it was stored. */
  ghost predicate Recoding(src: Db, k: Key) {
    k in src.rows && !(k.table.SSHKey? && Carried(src, k))
  }

  lemma ViewShape(src: Db, saved: Codec, loaded: Codec)
    requires SameServer(saved, loaded)
    ensures var v := View(Target(src, saved, loaded), saved.aes, saved.key);
            var w := View(src, saved.aes, saved.key);
            v.rows.Keys == w.rows.Keys && v.pairs == w.pairs
  {
    var t := Target(src, saved, loaded);
    forall k
      ensures Kept(t, k) <==> Kept(src, k)
    {
      TargetKeeps(src, saved, loaded, k);
    }
    forall p
      ensures t.Linked(p) <==> src.Linked(p)
    {
      TargetLinks(src, saved, loaded, p);
    }
  }

  /** What keeps the secret of a row the same at use. */
  predicate RowSurvives(src: Db, saved: Codec, loaded: Codec, recoded: bool, k: Key)
    requires k in src.rows
  {
    (!saved.decrypt && !loaded.decrypt) || !recoded || !Ambiguous(saved.aes, saved.key, src.rows[k])
  }

  lemma ViewRow(src: Db, saved: Codec, loaded: Codec, k: Key)
    requires SameServer(saved, loaded) && Kept(src, k)
    ensures k in View(Target(src, saved, loaded), saved.aes, saved.key).rows
    ensures View(Target(src, saved, loaded), saved.aes, saved.key).rows[k] == View(src, saved.aes, saved.key).rows[k]
            <==> RowSurvives(src, saved, loaded, Recoding(src, k), k)
  {
    TargetKeeps(src, saved, loaded, k);
    RecodeTwice(saved, loaded, k, src.rows[k]);
  }

  lemma SameRowsIff(v: Db, w: Db)
    requires v.rows.Keys == w.rows.Keys && v.pairs == w.pairs
    ensures v == w <==> forall k | k in w.rows :: v.rows[k] == w.rows[k]
  {
    if forall k | k in w.rows :: v.rows[k] == w.rows[k] {
      assert v.rows == w.rows;
    }
  }

  /** A backup and a restore on the same server leave the database as it is seen at use, exactly when neither
      command is given `--decrypt` or every secret that they recode is unambiguous. */
  lemma RestorePreservesView(cfg: Config, src: Db, saved: Codec, loaded: Codec)
    requires src.Typed() && SameServer(saved, loaded) && IsBackup(cfg, src, saved)
    ensures View(Restored(cfg, loaded), saved.aes, saved.key) == View(src, saved.aes, saved.key)
            <==> (!saved.decrypt && !loaded.decrypt)
                 || forall k | Recoding(src, k) :: !Ambiguous(saved.aes, saved.key, src.rows[k])
  {
    RestoreGivesTarget(cfg, src, saved, loaded);
    var v, w := View(Target(src, saved, loaded), saved.aes, saved.key), View(src, saved.aes, saved.key);
    ViewShape(src, saved, loaded);
    SameRowsIff(v, w);
    forall k | k in w.rows
      ensures v.rows[k] == w.rows[k] <==> RowSurvives(src, saved, loaded, Recoding(src, k), k)
    {
      ViewRow(src, saved, loaded, k);
    }
    OnlyKeptAreAmbiguous(src, saved, loaded);
  }

  /** Rows that are not kept have no secret. */
  lemma OnlyKeptAreAmbiguous(src: Db, saved: Codec, loaded: Codec)
    requires src.Typed() && SameServer(saved, loaded)
    ensures (forall k | k in View(src, saved.aes, saved.key).rows ::
               RowSurvives(src, saved, loaded, Recoding(src, k), k)) <==>
              (!saved.decrypt && !loaded.decrypt)
              || forall k | Recoding(src, k) :: !Ambiguous(saved.aes, saved.key, src.rows[k])
  {
    forall k | Recoding(src, k) && Ambiguous(saved.aes, saved.key, src.rows[k])
      ensures k in View(src, saved.aes, saved.key).rows
    {
      assert Kept(src, k);
    }
  }

  // ---- what a restore stores ------------------------------------------------------------------------

  /** The secret that a command stores for a row, by what it is in plain. */
  ghost predicate Stored(c: Codec, k: Key, plain: Row, stored: Row) {
    match plain
    case HostRow(_, password, _, _) =>
      && stored.HostRow? && stored.(password := password) == plain
      && (if c.decrypt || c.key == [] || password == [] then stored.password == password
          else Sealed(c.aes, c.key, c.iv(k), password, stored.password))
    case KeyRow(_, privKey) =>
      && stored.KeyRow? && stored.(privKey := privKey) == plain
      && (if c.decrypt || c.key == [] then stored.privKey == privKey
          else Sealed(c.aes, c.key, c.iv(k), privKey, stored.privKey))
    case _ => stored == plain
  }

  lemma RecodeStores(c: Codec, k: Key, row: Row)
    requires ServerKey(c.key)
    ensures Stored(c, k, OpenRow(c.aes, c.key, row), Recode(c, k, row))
  {
    match row
    case HostRow(_, password, _, _) => PasswordRecoded(c.aes, c.key, c.iv(k), c.decrypt, password);
    case KeyRow(_, privKey) => KeyRecoded(c.aes, c.key, c.iv(k), c.decrypt, privKey);
    case _ =>
  }

  /** What a backup holds of a row. */
  lemma BackupStores(cfg: Config, src: Db, c: Codec, t: Table, e: Entry)
    requires ServerKey(c.key) && IsBackup(cfg, src, c) && !t.Role? && e in cfg.List(t)
    ensures e.key in src.rows && Stored(c, e.key, OpenRow(c.aes, c.key, src.rows[e.key]), e.row)
  {
    assert Saves(cfg.List(t), src, c, t);
    RecodeStores(c, e.key, src.rows[e.key]);
  }

  /** Every row of a restored database, for every backup of it and all flags: a key that a host uses is stored as it
      was; any other secret, taken as the backup shows it, is in clear with `--decrypt` or without a key, and sealed
      under the key with a vector of its own otherwise. */
  lemma RestoreStores(cfg: Config, src: Db, saved: Codec, loaded: Codec, k: Key)
    requires src.Typed() && SameServer(saved, loaded) && IsBackup(cfg, src, saved) && k in Restored(cfg, loaded).rows
    ensures k in src.rows
    ensures var row := Restored(cfg, loaded).rows[k];
            var shown := OpenRow(saved.aes, saved.key, Recode(saved, k, src.rows[k]));
            if Recoding(src, k) then Stored(loaded, k, shown, row) else row == src.rows[k]
  {
    RestoreGivesTarget(cfg, src, saved, loaded);
    RecodeStores(loaded, k, Recode(saved, k, src.rows[k]));
  }

  // ---- a second backup ------------------------------------------------------------------------------

  ghost function OpenEntry(aes: Aes, key: Text, e: Entry): Entry {
    Entry(e.key, OpenRow(aes, key, e.row), map j | j in e.nested :: OpenRow(aes, key, e.nested[j]), e.pairs)
  }

  /** What a backup shows of a row. */
  ghost function Shown(db: Db, c: Codec, k: Key): Entry
    requires k in db.rows && ServerKey(c.key)
  {
    OpenEntry(c.aes, c.key, Recoded(c, EntryOf(db, k)))
  }

  /** The length of the secret of a row. */
  function SecretLength(row: Row): nat {
    match row
    case HostRow(_, password, _, _) => |password|
    case KeyRow(_, privKey) => |privKey|
    case _ => 0
  }

  /** Opening what is open already changes it exactly if it is ambiguous, and then makes it shorter. */
  lemma OpenTwice(aes: Aes, key: Text, row: Row)
    requires ServerKey(key)
    ensures var open := OpenRow(aes, key, row);
            OpenRow(aes, key, open) == open <==> !Ambiguous(aes, key, row)
    ensures OpenRow(aes, key, row) != row ==> SecretLength(OpenRow(aes, key, row)) < SecretLength(row)
  {
    match row
    case HostRow(_, password, _, _) =>
      SafeDecryptUnchanged(aes, key, password);
      SafeDecryptUnchanged(aes, key, OpenPassword(aes, key, password));
    case KeyRow(_, privKey) =>
      SafeDecryptUnchanged(aes, key, privKey);
      SafeDecryptUnchanged(aes, key, OpenKey(aes, key, privKey));
    case _ =>
  }

  /** What is seen of a row that a command has recoded. */
  lemma OpenRecoded(c: Codec, k: Key, row: Row)
    requires ServerKey(c.key)
    ensures var open := OpenRow(c.aes, c.key, row);
            OpenRow(c.aes, c.key, Recode(c, k, row)) == if c.decrypt then OpenRow(c.aes, c.key, open) else open
  {
    match row
    case HostRow(_, password, _, _) =>
      OpenSealedPassword(c.aes, c.key, c.iv(k), OpenPassword(c.aes, c.key, password));
    case KeyRow(_, privKey) =>
      OpenSealedKey(c.aes, c.key, c.iv(k), OpenKey(c.aes, c.key, privKey));
    case _ =>
  }

  /** Whether two backups with a restore between them show the same secret for a row that both list: the key of a
      host is restored as it was stored, any other secret is recoded by the restore too. */
  ghost predicate OwnSame(src: Db, saved: Codec, loaded: Codec, again: Codec, k: Key)
    requires k in src.rows && ServerKey(saved.key)
  {
    if Recoding(src, k) then
      (!loaded.decrypt && !again.decrypt) || !Ambiguous(saved.aes, saved.key, Recode(saved, k, src.rows[k]))
    else
      saved.decrypt == again.decrypt || !Ambiguous(saved.aes, saved.key, src.rows[k])
  }

  /** The same for a row nested in another, which backups leave as it is stored. */
  ghost predicate NestedSame(src: Db, saved: Codec, loaded: Codec, j: Key)
    requires j in src.rows
  {
    RowSurvives(src, saved, loaded, Recoding(src, j), j)
  }

  /** The condition for the whole entry of a row. */
  ghost predicate EntrySame(src: Db, saved: Codec, loaded: Codec, again: Codec, k: Key)
    requires k in src.rows && ServerKey(saved.key)
  {
    && OwnSame(src, saved, loaded, again, k)
    && forall j | j in src.rows && Carries(src, k, j) :: NestedSame(src, saved, loaded, j)
  }

  lemma OwnSameIff(src: Db, saved: Codec, loaded: Codec, again: Codec, k: Key)
    requires SameServer(saved, loaded) && SameServer(saved, again) && k in src.rows
    ensures var first := OpenRow(saved.aes, saved.key, Recode(saved, k, src.rows[k]));
            var second := OpenRow(saved.aes, saved.key, Recode(again, k, TargetRow(src, saved, loaded, k)));
            first == second <==> OwnSame(src, saved, loaded, again, k)
  {
    var row := src.rows[k];
    OpenRecoded(saved, k, row);
    OpenTwice(saved.aes, saved.key, row);
    OpenRecoded(again, k, TargetRow(src, saved, loaded, k));
    if Recoding(src, k) {
      var first := Recode(saved, k, row);
      var open := OpenRow(saved.aes, saved.key, first);
      OpenRecoded(loaded, k, first);
      OpenTwice(saved.aes, saved.key, first);
      OpenTwice(saved.aes, saved.key, open);
      OpenTwice(saved.aes, saved.key, OpenRow(saved.aes, saved.key, open));
    }
  }

  lemma TargetCarries(src: Db, saved: Codec, loaded: Codec, k: Key, j: Key)
    requires src.Typed() && ServerKey(saved.key) && ServerKey(loaded.key) && k in src.rows && !k.table.Role?
    ensures var t := Target(src, saved, loaded);
            && CarriedPairs(t, k) == CarriedPairs(src, k)
            && (j in src.rows && Carries(src, k, j) <==> j in t.rows && Carries(t, k, j))
  {
    var t := Target(src, saved, loaded);
    forall p
      ensures t.Linked(p) <==> src.Linked(p)
    {
      TargetLinks(src, saved, loaded, p);
    }
    assert CarriedPairs(t, k) == CarriedPairs(src, k);
    if j in src.rows && j.table.Role? && Carries(src, k, j) {
      var p :| p in CarriedPairs(src, k) && p.Touches(j);
      assert src.Linked(p) && Kept(src, j);
    }
  }

  /** The entry of a row in the first backup, opened, and the one in the second. */
  lemma EntrySameIff(src: Db, saved: Codec, loaded: Codec, again: Codec, k: Key)
    requires src.Typed() && SameServer(saved, loaded) && SameServer(saved, again) && k in src.rows && !k.table.Role?
    ensures k in Target(src, saved, loaded).rows
    ensures Shown(src, saved, k) == Shown(Target(src, saved, loaded), again, k)
            <==> EntrySame(src, saved, loaded, again, k)
  {
    var t := Target(src, saved, loaded);
    assert Kept(src, k);
    var e, f := Shown(src, saved, k), Shown(t, again, k);
    OwnSameIff(src, saved, loaded, again, k);
    TargetCarries(src, saved, loaded, k, k);
    forall j
      ensures j in e.nested <==> j in f.nested
      ensures j in e.nested <==> j in src.rows && Carries(src, k, j)
      ensures j in e.nested ==> (e.nested[j] == f.nested[j] <==> NestedSame(src, saved, loaded, j))
    {
      TargetCarries(src, saved, loaded, k, j);
      if j in e.nested {
        RecodeTwice(saved, loaded, j, src.rows[j]);
      }
    }
    EqualEntries(e, f);
  }

  lemma EqualEntries(e: Entry, f: Entry)
    requires e.key == f.key && e.pairs == f.pairs && forall j :: j in e.nested <==> j in f.nested
    ensures e == f <==> e.row == f.row && forall j | j in e.nested :: e.nested[j] == f.nested[j]
  {
    if e.row == f.row && forall j | j in e.nested :: e.nested[j] == f.nested[j] {
      assert e.nested == f.nested;
    }
  }

  /** Whether each entry of one list has an equal one in the other, once opened. */
  ghost predicate ShownIn(aes: Aes, key: Text, es: seq<Entry>, fs: seq<Entry>) {
    forall e | e in es :: ShownAs(aes, key, e, fs)
  }

  ghost predicate ShownAs(aes: Aes, key: Text, e: Entry, fs: seq<Entry>) {
    exists f :: f in fs && OpenEntry(aes, key, f) == OpenEntry(aes, key, e)
  }

  /** Two lists that save the same rows show the same, exactly if they do for every row. */
  lemma ShownIff(es: seq<Entry>, fs: seq<Entry>, db: Db, db': Db, c: Codec, c': Codec, t: Table)
    requires SameServer(c, c') && Saves(es, db, c, t) && Saves(fs, db', c', t)
    requires forall k: Key | k.table == t :: k in db.rows <==> k in db'.rows
    ensures ShownIn(c.aes, c.key, es, fs) <==>
              forall k | k in db.rows && k.table == t :: Shown(db, c, k) == Shown(db', c', k)
  {
    forall k | k in db.rows && k.table == t
      ensures exists e :: e in es && e == Recoded(c, EntryOf(db, k))
      ensures exists f :: f in fs && f == Recoded(c', EntryOf(db', k))
    {
      assert Listed(es, k) && Listed(fs, k);
    }
    if ShownIn(c.aes, c.key, es, fs) {
      forall k | k in db.rows && k.table == t
        ensures Shown(db, c, k) == Shown(db', c', k)
      {
        var e :| e in es && e == Recoded(c, EntryOf(db, k));
        assert ShownAs(c.aes, c.key, e, fs);
      }
    }
  }

  /** Backing up, restoring and backing up again shows the same entries of a table, secrets compared after decryption,
      exactly when each row of it meets the condition on the flags and on its secrets. */
  lemma SecondBackup(cfg: Config, src: Db, saved: Codec, loaded: Codec, cfg': Config, again: Codec, t: Table)
    requires src.Typed() && SameServer(saved, loaded) && SameServer(saved, again) && !t.Role?
    requires IsBackup(cfg, src, saved) && IsBackup(cfg', Restored(cfg, loaded), again)
    ensures ShownIn(saved.aes, saved.key, cfg.List(t), cfg'.List(t)) <==>
              forall k | k in src.rows && k.table == t :: EntrySame(src, saved, loaded, again, k)
    ensures ShownIn(saved.aes, saved.key, cfg'.List(t), cfg.List(t)) <==>
              forall k | k in src.rows && k.table == t :: EntrySame(src, saved, loaded, again, k)
  {
    var db := Restored(cfg, loaded);
    RestoreGivesTarget(cfg, src, saved, loaded);
    assert Saves(cfg.List(t), src, saved, t) && Saves(cfg'.List(t), db, again, t);
    forall k | k in src.rows && k.table == t
      ensures k in db.rows
      ensures Shown(src, saved, k) == Shown(db, again, k) <==> EntrySame(src, saved, loaded, again, k)
    {
      EntrySameIff(src, saved, loaded, again, k);
    }
    ShownIff(cfg.List(t), cfg'.List(t), src, db, saved, again, t);
    ShownIff(cfg'.List(t), cfg.List(t), db, src, again, saved, t);
  }
}
