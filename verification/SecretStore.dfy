/** The two-tier secret store: an OS keychain that may lose what it is given or fail to read it back,
    and a plaintext file for when it does. Together they are to behave as one map from keys to
    secrets, in which the empty string counts as absent. */
module SecretStore {
  import opened Prelude

  /** `seen`: the entry has been read back, and so stays readable until it is replaced. */
  datatype Entry = Entry(value: string, seen: bool)

  datatype Disk = Disk(keychain: map<string, Entry>, files: map<string, string>)

  /** What became of a keychain item that was to be written. */
  datatype Fate = Installed | Lost | KeptOld

  /** How one keychain write went: the item, its marker item, and what was reported. */
  datatype Write = Write(item: Fate, marker: Fate, reportsOk: bool)

  /** The keychain's behaviour during one call: the write, if one is made, and whether an entry never
      read back before is readable, first on its own and then in the check after the write. */
  datatype Env = Env(visible: bool, write: Write, visibleAfter: bool)

  const MARKER := "_marker"

  function AccountOf(key: string, suffix: string): string {
    "nostr_secret_" + key + suffix
  }

  function MarkerOf(account: string): string {
    account + MARKER
  }

  const EMPTY := Disk(map[], map[])

  // ---------------------------------------------------------------- the platform

  function Put(keychain: map<string, Entry>, account: string, value: string, fate: Fate): map<string, Entry> {
    match fate
    case Installed => keychain[account := Entry(value, false)]
    case Lost => keychain - {account}
    case KeptOld => keychain
  }

  function StoreItems(keychain: map<string, Entry>, account: string, value: string, w: Write): map<string, Entry> {
    Put(Put(keychain, account, value, w.item), MarkerOf(account), "1", w.marker)
  }

  predicate Readable(keychain: map<string, Entry>, account: string, visible: bool) {
    account in keychain && (keychain[account].seen || visible)
  }

  /** Reading an entry back makes it seen. */
  function AfterRead(keychain: map<string, Entry>, account: string, visible: bool): map<string, Entry> {
    if Readable(keychain, account, visible)
    then keychain[account := Entry(keychain[account].value, true)] else keychain
  }

  function ReadItem(keychain: map<string, Entry>, account: string, visible: bool): Option<string> {
    if Readable(keychain, account, visible) then Some(keychain[account].value) else None
  }

  // ---------------------------------------------------------------- the three commands

  /** Whether the value was written and read back identically. */
  predicate Verified(keychain: map<string, Entry>, account: string, value: string, e: Env) {
    e.write.reportsOk
    && ReadItem(StoreItems(keychain, account, value, e.write), account, e.visibleAfter) == Some(value)
  }

  function AfterStore(keychain: map<string, Entry>, account: string, value: string, e: Env): map<string, Entry> {
    var written := StoreItems(keychain, account, value, e.write);
    if e.write.reportsOk then AfterRead(written, account, e.visibleAfter) else written
  }

  function Set(d: Disk, account: string, value: string, e: Env): Disk {
    Disk(AfterStore(d.keychain, account, value, e),
         if Verified(d.keychain, account, value, e) then d.files - {account} else d.files[account := value])
  }

  function FileSecret(d: Disk, account: string): Option<string> {
    if account in d.files && d.files[account] != "" then Some(d.files[account]) else None
  }

  function KeychainSecret(d: Disk, account: string, e: Env): Option<string> {
    match ReadItem(d.keychain, account, e.visible)
    case Some(s) => if s != "" then Some(s) else None
    case None => None
  }

  function Answer(d: Disk, account: string, e: Env): Option<string> {
    if KeychainSecret(d, account, e).Some? then KeychainSecret(d, account, e) else FileSecret(d, account)
  }

  function AfterGet(d: Disk, account: string, e: Env): Disk {
    var read := AfterRead(d.keychain, account, e.visible);
    if KeychainSecret(d, account, e).Some? then Disk(read, d.files - {account})
    else
      match FileSecret(d, account)
      case None => Disk(read, d.files)
      case Some(s) =>
        Disk(AfterStore(read, account, s, e), if Verified(read, account, s, e) then d.files - {account} else d.files)
  }

  function Delete(d: Disk, account: string): Disk {
    Disk(d.keychain - {account, MarkerOf(account)}, d.files - {account})
  }

  // ---------------------------------------------------------------- the map it stands for

  /** What is contracted of the keychain: a write installs the new value or leaves no entry behind. */
  predicate Honest(e: Env) {
    e.write.item != KeptOld
  }

  function ValueIn(m: map<string, string>, key: string): string {
    if key in m then m[key] else ""
  }

  function Lookup(m: map<string, string>, key: string): Option<string> {
    if key in m then Some(m[key]) else None
  }

  function Assign(m: map<string, string>, key: string, value: string): map<string, string> {
    if value == "" then m - {key} else m[key := value]
  }

  /** No key's marker item is another key's own item. */
  ghost predicate MarkerFree(suffix: string, keys: set<string>) {
    forall a, b | a in keys && b in keys :: MarkerOf(AccountOf(a, suffix)) != AccountOf(b, suffix)
  }

  /** Under `account` the two tiers hold `value` wherever they hold anything, and enough of it to be
      found again. */
  predicate Holds(d: Disk, account: string, value: string) {
    && (account in d.keychain ==> d.keychain[account].value == value)
    && (account in d.files ==> d.files[account] == value)
    && (value != "" ==> account in d.files || (account in d.keychain && d.keychain[account].seen))
  }

  ghost predicate Represents(d: Disk, suffix: string, keys: set<string>, m: map<string, string>) {
    && m.Keys <= keys
    && (forall k | k in m :: m[k] != "")
    && (forall k | k in keys :: Holds(d, AccountOf(k, suffix), ValueIn(m, k)))
  }

  lemma AccountsDistinct(a: string, b: string, suffix: string)
    ensures AccountOf(a, suffix) == AccountOf(b, suffix) <==> a == b
  {
    var p := "nostr_secret_";
    if AccountOf(a, suffix) == AccountOf(b, suffix) {
      assert AccountOf(a, suffix)[|p|..|p| + |a|] == a;
      assert AccountOf(b, suffix)[|p|..|p| + |b|] == b;
    }
  }

  /** Items other than the account and its marker are untouched. */
  lemma StoreElsewhere(keychain: map<string, Entry>, account: string, value: string, e: Env, other: string)
    requires other != account && other != MarkerOf(account)
    ensures var after := AfterStore(keychain, account, value, e);
            (other in after <==> other in keychain) && (other in keychain ==> after[other] == keychain[other])
  {
  }

  lemma SetHolds(d: Disk, account: string, value: string, e: Env)
    requires Honest(e)
    ensures Holds(Set(d, account, value, e), account, value)
  {
    assert MarkerOf(account) != account by { assert |MarkerOf(account)| != |account|; }
  }

  lemma GetHolds(d: Disk, account: string, value: string, e: Env)
    requires Honest(e) && Holds(d, account, value)
    ensures Holds(AfterGet(d, account, e), account, value)
    ensures Answer(d, account, e) == if value == "" then None else Some(value)
  {
    assert MarkerOf(account) != account by { assert |MarkerOf(account)| != |account|; }
  }

  lemma OtherHolds(d: Disk, account: string, other: string, value: string, s: string, e: Env)
    requires other != account && other != MarkerOf(account) && Holds(d, other, value)
    ensures Holds(Set(d, account, s, e), other, value)
    ensures Holds(AfterGet(d, account, e), other, value)
    ensures Holds(Delete(d, account), other, value)
  {
    StoreElsewhere(d.keychain, account, s, e, other);
    var read := AfterRead(d.keychain, account, e.visible);
    if FileSecret(d, account).Some? { StoreElsewhere(read, account, FileSecret(d, account).value, e, other); }
  }

  // ---------------------------------------------------------------- runs

  datatype Op = SetOp(key: string, value: string, env: Env) | GetOp(key: string, env: Env) | DeleteOp(key: string)

  function Apply(d: Disk, suffix: string, op: Op): Disk {
    var account := AccountOf(op.key, suffix);
    match op
    case SetOp(_, value, e) => Set(d, account, value, e)
    case GetOp(_, e) => AfterGet(d, account, e)
    case DeleteOp(_) => Delete(d, account)
  }

  function ApplyToMap(m: map<string, string>, op: Op): map<string, string> {
    match op
    case SetOp(key, value, _) => Assign(m, key, value)
    case GetOp(_, _) => m
    case DeleteOp(key) => m - {key}
  }

  function RunOn(d: Disk, suffix: string, ops: seq<Op>): Disk
    decreases |ops|
  {
    if ops == [] then d else Apply(RunOn(d, suffix, ops[..|ops| - 1]), suffix, ops[|ops| - 1])
  }

  function RunOnMap(m: map<string, string>, ops: seq<Op>): map<string, string>
    decreases |ops|
  {
    if ops == [] then m else ApplyToMap(RunOnMap(m, ops[..|ops| - 1]), ops[|ops| - 1])
  }

  predicate Contracted(op: Op) {
    op.DeleteOp? || Honest(op.env)
  }

  ghost predicate Allowed(ops: seq<Op>, keys: set<string>) {
    forall k | 0 <= k < |ops| :: Contracted(ops[k]) && ops[k].key in keys
  }

  lemma StepRefines(d: Disk, suffix: string, keys: set<string>, m: map<string, string>, op: Op)
    requires MarkerFree(suffix, keys) && Represents(d, suffix, keys, m) && Contracted(op) && op.key in keys
    ensures Represents(Apply(d, suffix, op), suffix, keys, ApplyToMap(m, op))
    ensures op.GetOp? ==> Answer(d, AccountOf(op.key, suffix), op.env) == Lookup(m, op.key)
  {
    hide Set, AfterGet, Delete, Answer, Holds, AccountOf, MarkerOf;
    var account := AccountOf(op.key, suffix);
    assert Holds(d, account, ValueIn(m, op.key));
    match op {
      case SetOp(_, value, e) => SetHolds(d, account, value, e);
      case GetOp(_, e) => GetHolds(d, account, ValueIn(m, op.key), e);
      case DeleteOp(_) => DeleteHolds(d, account);
    }
    var m' := ApplyToMap(m, op);
    forall k | k in keys ensures Holds(Apply(d, suffix, op), AccountOf(k, suffix), ValueIn(m', k)) {
      if k != op.key {
        AccountsDistinct(k, op.key, suffix);
        OtherHolds(d, account, AccountOf(k, suffix), ValueIn(m, k),
                   if op.SetOp? then op.value else "",
                   if op.DeleteOp? then Env(false, Write(Lost, Lost, false), false) else op.env);
      }
    }
  }

  lemma DeleteHolds(d: Disk, account: string)
    ensures Holds(Delete(d, account), account, "")
  {
  }

  /** Over keys free of marker clashes, any run of the store leaves it standing for the map that the
      same operations build. */
  lemma {:induction false} RunRefines(suffix: string, keys: set<string>, ops: seq<Op>)
    requires MarkerFree(suffix, keys) && Allowed(ops, keys)
    ensures Represents(RunOn(EMPTY, suffix, ops), suffix, keys, RunOnMap(map[], ops))
    decreases |ops|
  {
    if ops != [] {
      var before := ops[..|ops| - 1];
      assert Allowed(before, keys) by { assert forall k | 0 <= k < |before| :: before[k] == ops[k]; }
      RunRefines(suffix, keys, before);
      StepRefines(RunOn(EMPTY, suffix, before), suffix, keys, RunOnMap(map[], before), ops[|ops| - 1]);
    }
  }

  /** The store is a map over `keys`: after any run over them, reading a key gives what was last set. */
  ghost predicate IsMapOver(suffix: string, keys: set<string>) {
    forall ops, key, e | Allowed(ops, keys) && key in keys && Honest(e) ::
      Answer(RunOn(EMPTY, suffix, ops), AccountOf(key, suffix), e) == Lookup(RunOnMap(map[], ops), key)
  }

  /** It is one exactly when no marker item clashes with a key's own item. */
  lemma MapExactlyWhenMarkerFree(suffix: string, keys: set<string>)
    ensures IsMapOver(suffix, keys) <==> MarkerFree(suffix, keys)
  {
    if MarkerFree(suffix, keys) {
      forall ops, key, e | Allowed(ops, keys) && key in keys && Honest(e)
        ensures Answer(RunOn(EMPTY, suffix, ops), AccountOf(key, suffix), e) == Lookup(RunOnMap(map[], ops), key)
      {
        RunRefines(suffix, keys, ops);
        StepRefines(RunOn(EMPTY, suffix, ops), suffix, keys, RunOnMap(map[], ops), GetOp(key, e));
      }
    } else {
      var a, b :| a in keys && b in keys && MarkerOf(AccountOf(a, suffix)) == AccountOf(b, suffix);
      var good := Env(true, Write(Installed, Installed, true), true);
      var ops := [SetOp(b, "secret", good), SetOp(a, "other", good)];
      MarkerOverwrites(suffix, a, b);
      assert Allowed(ops, keys);
      assert Answer(RunOn(EMPTY, suffix, ops), AccountOf(b, suffix), good) != Lookup(RunOnMap(map[], ops), b);
    }
  }

  /** Storing `a` writes its marker over the secret of a key `b` of the clashing name. */
  lemma MarkerOverwrites(suffix: string, a: string, b: string)
    requires MarkerOf(AccountOf(a, suffix)) == AccountOf(b, suffix)
    ensures var good := Env(true, Write(Installed, Installed, true), true);
            var ops := [SetOp(b, "secret", good), SetOp(a, "other", good)];
            Answer(RunOn(EMPTY, suffix, ops), AccountOf(b, suffix), good) == Some("1")
            && Lookup(RunOnMap(map[], ops), b) == Some("secret")
  {
    var good := Env(true, Write(Installed, Installed, true), true);
    var s1, s2 := SetOp(b, "secret", good), SetOp(a, "other", good);
    var ops := [s1, s2];
    assert ops[..1] == [s1] && [s1][..0] == [];
    var d1 := Apply(EMPTY, suffix, s1);
    assert RunOn(EMPTY, suffix, [s1]) == d1 && RunOn(EMPTY, suffix, ops) == Apply(d1, suffix, s2);
    assert |MarkerOf(AccountOf(a, suffix))| != |AccountOf(a, suffix)|;
    assert a != b;
    assert RunOnMap(map[], [s1]) == map[b := "secret"];
    assert RunOnMap(map[], ops) == map[b := "secret", a := "other"];
  }

  /** The clash spelled out: `b` is `a` with the marker ending, shifted by the instance suffix; with the
      empty suffix of the default instance, simply `a` + "_marker". */
  lemma ClashExactly(suffix: string, a: string, b: string)
    ensures MarkerOf(AccountOf(a, suffix)) == AccountOf(b, suffix) <==> b + suffix == a + suffix + MARKER
    ensures suffix == "" ==> (MarkerOf(AccountOf(a, suffix)) == AccountOf(b, suffix) <==> b == a + MARKER)
  {
    var p := "nostr_secret_";
    assert MarkerOf(AccountOf(a, suffix)) == p + (a + suffix + MARKER);
    assert AccountOf(b, suffix) == p + (b + suffix);
    assert (p + (a + suffix + MARKER))[|p|..] == a + suffix + MARKER;
    assert (p + (b + suffix))[|p|..] == b + suffix;
    assert b + "" == b && a + "" == a;
  }

  /** The contract on writes is needed, and exactly this much of it: whatever the disk holds, a secret
      just set is what is read next, unless the write kept an older, different, readable entry. */
  lemma SetThenGetExactly(d: Disk, account: string, value: string, e: Env, e': Env)
    requires value != ""
    ensures Answer(Set(d, account, value, e), account, e') == Some(value)
            <==> !(e.write.item == KeptOld
                   && Readable(d.keychain, account, e'.visible || (e.write.reportsOk && e.visibleAfter))
                   && d.keychain[account].value != value && d.keychain[account].value != "")
  {
    assert MarkerOf(account) != account by { assert |MarkerOf(account)| != |account|; }
  }

  // ---------------------------------------------------------------- the plaintext file

  /** The item reads back as `value` after the write: the new entry is installed and readable, or the old one
      was kept, is readable and has that value. */
  predicate ReadsBack(keychain: map<string, Entry>, account: string, value: string, e: Env) {
    match e.write.item
    case Installed => e.visibleAfter
    case Lost => false
    case KeptOld =>
      account in keychain && (keychain[account].seen || e.visibleAfter) && keychain[account].value == value
  }

  /** The write reported success and reads back. */
  predicate Sticks(keychain: map<string, Entry>, account: string, value: string, e: Env) {
    e.write.reportsOk && ReadsBack(keychain, account, value, e)
  }

  ghost predicate OtherFilesKept(d: Disk, d': Disk, account: string) {
    forall other | other != account ::
      (other in d'.files <==> other in d.files) && (other in d.files ==> d'.files[other] == d.files[other])
  }

  lemma VerifiedExactly(keychain: map<string, Entry>, account: string, value: string, e: Env)
    ensures Verified(keychain, account, value, e) <==> Sticks(keychain, account, value, e)
  {
    assert MarkerOf(account) != account by { assert |MarkerOf(account)| != |account|; }
  }

  /** A set leaves a plaintext copy if and only if the keychain's write did not stick; then it is the value. */
  lemma SetLeavesAFileExactly(d: Disk, account: string, value: string, e: Env)
    ensures var d' := Set(d, account, value, e);
            && (account in d'.files <==> !Sticks(d.keychain, account, value, e))
            && (account in d'.files ==> d'.files[account] == value)
            && OtherFilesKept(d, d', account)
  {
    VerifiedExactly(d.keychain, account, value, e);
  }

  /** A get that the keychain answers removes the copy; one that the file answers removes it if and only if it
      could be moved to the keychain and stuck there; no get writes a file. */
  lemma GetLeavesAFileExactly(d: Disk, account: string, e: Env)
    ensures var d' := AfterGet(d, account, e);
            var answered := account in d.keychain && (d.keychain[account].seen || e.visible)
                            && d.keychain[account].value != "";
            && (answered ==> account !in d'.files)
            && (!answered && account in d.files && d.files[account] != "" ==>
                  (account in d'.files <==> !Sticks(d.keychain, account, d.files[account], e)))
            && (!answered && !(account in d.files && d.files[account] != "") ==> d'.files == d.files)
            && (account in d'.files ==> account in d.files && d'.files[account] == d.files[account])
            && OtherFilesKept(d, d', account)
  {
    var read := AfterRead(d.keychain, account, e.visible);
    if account in d.files {
      VerifiedExactly(read, account, d.files[account], e);
    }
  }

  /** A deletion removes the item, its marker and the copy, and nothing else. */
  lemma DeleteRemovesAll(d: Disk, account: string)
    ensures var d' := Delete(d, account);
            && account !in d'.keychain && account + "_marker" !in d'.keychain && account !in d'.files
            && OtherFilesKept(d, d', account)
            && forall other | other in d.keychain && other != account && other != account + "_marker" ::
                 other in d'.keychain && d'.keychain[other] == d.keychain[other]
  {
  }

  /** Every write of the key in the run sticks. */
  ghost predicate AllStick(d: Disk, suffix: string, ops: seq<Op>, key: string) {
    forall k | 0 <= k < |ops| && ops[k].SetOp? && ops[k].key == key ::
      Sticks(RunOn(d, suffix, ops[..k]).keychain, AccountOf(key, suffix), ops[k].value, ops[k].env)
  }

  /** Without a plaintext copy of a secret there comes to be none until a write of it does not stick. */
  lemma {:induction false} NoPlaintextReturns(d: Disk, suffix: string, ops: seq<Op>, key: string)
    requires AccountOf(key, suffix) !in d.files && AllStick(d, suffix, ops, key)
    ensures AccountOf(key, suffix) !in RunOn(d, suffix, ops).files
    decreases |ops|
  {
    hide Set, AfterGet, Delete, Sticks, AccountOf;
    if ops != [] {
      var m := |ops| - 1;
      var before := RunOn(d, suffix, ops[..m]);
      assert forall k | 0 <= k < m :: ops[..m][..k] == ops[..k] && ops[..m][k] == ops[k];
      NoPlaintextReturns(d, suffix, ops[..m], key);
      AccountsDistinct(ops[m].key, key, suffix);
      var account := AccountOf(ops[m].key, suffix);
      match ops[m]
      case SetOp(_, value, e) => SetLeavesAFileExactly(before, account, value, e);
      case GetOp(_, e) => GetLeavesAFileExactly(before, account, e);
      case DeleteOp(_) => DeleteRemovesAll(before, account);
    }
  }

  /** So after a set that stuck, whatever was there before, the secret has no plaintext copy until a later
      write of it does not stick. */
  lemma NoPlaintextAfterASet(d: Disk, suffix: string, key: string, value: string, e: Env, ops: seq<Op>)
    requires Sticks(d.keychain, AccountOf(key, suffix), value, e)
    requires AllStick(Apply(d, suffix, SetOp(key, value, e)), suffix, ops, key)
    ensures AccountOf(key, suffix) !in RunOn(Apply(d, suffix, SetOp(key, value, e)), suffix, ops).files
  {
    hide Set, Sticks, RunOn, AllStick, AccountOf;
    SetLeavesAFileExactly(d, AccountOf(key, suffix), value, e);
    NoPlaintextReturns(Apply(d, suffix, SetOp(key, value, e)), suffix, ops, key);
  }

  // ---------------------------------------------------------------- the program

  class Store {
    const suffix: string
    var keychain: map<string, Entry>
    var files: map<string, string>

    constructor (suffix: string)
      ensures View() == EMPTY && this.suffix == suffix
    {
      this.suffix := suffix;
      keychain, files := map[], map[];
    }

    ghost function View(): Disk
      reads this
    {
      Disk(keychain, files)
    }

    method WriteItem(account: string, value: string, fate: Fate)
      modifies this`keychain
      ensures keychain == Put(old(keychain), account, value, fate)
    {
      match fate
      case Installed => keychain := keychain[account := Entry(value, false)];
      case Lost => keychain := keychain - {account};
      case KeptOld =>
    }

    method ReadKey(account: string, visible: bool) returns (r: Option<string>)
      modifies this`keychain
      ensures r == ReadItem(old(keychain), account, visible)
      ensures keychain == AfterRead(old(keychain), account, visible)
    {
      if account !in keychain || !(keychain[account].seen || visible) { return None; }
      r := Some(keychain[account].value);
      keychain := keychain[account := Entry(keychain[account].value, true)];
    }

    /** Writes a secret to the keychain and confirms that it reads back identically. */
    method StoreVerified(account: string, value: string, e: Env) returns (ok: bool)
      modifies this`keychain
      ensures ok == Verified(old(keychain), account, value, e)
      ensures keychain == AfterStore(old(keychain), account, value, e)
    {
      WriteItem(account, value, e.write.item);
      WriteItem(MarkerOf(account), "1", e.write.marker);
      if !e.write.reportsOk { return false; }
      var read := ReadKey(account, e.visibleAfter);
      return read == Some(value);
    }

    method SetSecret(key: string, value: string, e: Env)
      modifies this
      ensures View() == Apply(old(View()), suffix, SetOp(key, value, e))
    {
      var account := AccountOf(key, suffix);
      var ok := StoreVerified(account, value, e);
      if ok {
        files := files - {account};
      } else {
        files := files[account := value];
      }
    }

    method GetSecret(key: string, e: Env) returns (r: Option<string>)
      modifies this
      ensures View() == Apply(old(View()), suffix, GetOp(key, e))
      ensures r == Answer(old(View()), AccountOf(key, suffix), e)
    {
      var account := AccountOf(key, suffix);
      var data := ReadKey(account, e.visible);
      if data.Some? && data.value != "" {
        files := files - {account};
        return data;
      }
      if account in files && files[account] != "" {
        var s := files[account];
        var ok := StoreVerified(account, s, e);
        if ok { files := files - {account}; }
        return Some(s);
      }
      return None;
    }

    method DeleteSecret(key: string)
      modifies this
      ensures View() == Apply(old(View()), suffix, DeleteOp(key))
    {
      var account := AccountOf(key, suffix);
      keychain := keychain - {account, MarkerOf(account)};
      files := files - {account};
    }
  }
}
