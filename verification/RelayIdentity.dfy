/** The embedded relay's signing key: kept in the secret store, migrated once from an old plaintext
    file, and otherwise generated. */
module RelayIdentity {
  import opened Prelude
  import opened SecretStore

  const IDENTITY := "embedded_relay_identity"

  /** `char::is_whitespace`. */
  predicate IsWhitespace(c: char) {
    var x := c as int;
    9 <= x <= 13 || x in {0x20, 0x85, 0xA0, 0x1680, 0x2028, 0x2029, 0x202F, 0x205F, 0x3000} || 0x2000 <= x <= 0x200A
  }

  function TrimStart(s: string): string {
    if s != "" && IsWhitespace(s[0]) then TrimStart(s[1..]) else s
  }

  function TrimEnd(s: string): string {
    if s != "" && IsWhitespace(s[|s| - 1]) then TrimEnd(s[..|s| - 1]) else s
  }

  function Trim(s: string): string {
    TrimEnd(TrimStart(s))
  }

  predicate IsHexDigit(c: char) {
    '0' <= c <= '9' || 'a' <= c <= 'f' || 'A' <= c <= 'F'
  }

  predicate IsValidHexKey(s: string) {
    |Trim(s)| == 64 && forall i | 0 <= i < 64 :: IsHexDigit(Trim(s)[i])
  }

  /** The secret store's disk and the old key file. */
  datatype Home = Home(disk: Disk, file: Option<string>)

  /** The keychain's behaviour during the up to three store calls of one start. */
  datatype StartEnv = StartEnv(first: Env, store: Env, check: Env)

  datatype Op =
    | Start(env: StartEnv, generated: string)
    | Other(op: SecretStore.Op)
    | Reset(wipe: bool)

  /** The key that a start returns, and the home it leaves. `generated` is what the random generator
      would give. */
  function LoadOrCreate(h: Home, suffix: string, e: StartEnv, generated: string): (Home, string) {
    var account := AccountOf(IDENTITY, suffix);
    var existing := Answer(h.disk, account, e.first);
    var d := AfterGet(h.disk, account, e.first);
    if existing.Some? && IsValidHexKey(existing.value) then (h.(disk := d), Trim(existing.value))
    else if h.file.Some? && IsValidHexKey(h.file.value) then
      var key := Trim(h.file.value);
      var stored := Set(d, account, key, e.store);
      var readBack := Answer(stored, account, e.check);
      var persisted := readBack.Some? && Trim(readBack.value) == key;
      (Home(AfterGet(stored, account, e.check), if persisted then None else h.file), key)
    else (h.(disk := Set(d, account, generated, e.store)), generated)
  }

  function Wipe(h: Home, suffix: string, wipe: bool): Home {
    if wipe then Home(Delete(h.disk, AccountOf(IDENTITY, suffix)), None) else h
  }

  function Step(h: Home, suffix: string, op: Op): Home {
    match op
    case Start(e, generated) => LoadOrCreate(h, suffix, e, generated).0
    case Other(o) => h.(disk := Apply(h.disk, suffix, o))
    case Reset(wipe) => Wipe(h, suffix, wipe)
  }

  // ---------------------------------------------------------------- the identity at rest

  /** The key the relay would come up with: the stored one, else the old file's. */
  function Identity(m: map<string, string>, file: Option<string>): Option<string> {
    if IDENTITY in m && IsValidHexKey(m[IDENTITY]) then Some(Trim(m[IDENTITY]))
    else if file.Some? && IsValidHexKey(file.value) then Some(Trim(file.value))
    else None
  }

  /** A key as the generator writes it: 64 hex digits. */
  predicate IsHexKey(s: string) {
    |s| == 64 && forall i | 0 <= i < 64 :: IsHexDigit(s[i])
  }

  lemma {:induction false} TrimStartOf(s: string)
    ensures TrimStart(s) != "" ==> !IsWhitespace(TrimStart(s)[0])
    ensures s != "" && !IsWhitespace(s[0]) ==> TrimStart(s) == s
  {
    if s != "" && IsWhitespace(s[0]) { TrimStartOf(s[1..]); }
  }

  lemma {:induction false} TrimEndOf(s: string)
    ensures TrimEnd(s) != "" ==> !IsWhitespace(TrimEnd(s)[|TrimEnd(s)| - 1]) && TrimEnd(s)[0] == s[0]
    ensures TrimEnd(s) <= s
    ensures s != "" && !IsWhitespace(s[|s| - 1]) ==> TrimEnd(s) == s
  {
    if s != "" && IsWhitespace(s[|s| - 1]) { TrimEndOf(s[..|s| - 1]); }
  }

  lemma TrimIdempotent(s: string)
    ensures Trim(Trim(s)) == Trim(s)
  {
    TrimStartOf(s);
    TrimEndOf(TrimStart(s));
    if Trim(s) != "" {
      TrimStartOf(Trim(s));
      TrimEndOf(Trim(s));
    }
  }

  lemma HexKeyIsTrimmed(s: string)
    requires IsHexKey(s)
    ensures Trim(s) == s && IsValidHexKey(s)
  {
    assert IsHexDigit(s[0]) && IsHexDigit(s[63]);
    TrimStartOf(s);
    TrimEndOf(s);
  }

  /** `m` is what the store stands for, and the keys in use include the relay's. */
  ghost predicate AtRest(h: Home, suffix: string, keys: set<string>, m: map<string, string>) {
    IDENTITY in keys && MarkerFree(suffix, keys) && Represents(h.disk, suffix, keys, m)
  }

  predicate Contracted(op: Op, keys: set<string>) {
    match op
    case Start(e, generated) => Honest(e.first) && Honest(e.store) && Honest(e.check) && IsHexKey(generated)
    case Other(o) => SecretStore.Contracted(o) && o.key in keys && o.key != IDENTITY
    case Reset(_) => true
  }

  /** What each operation does to the map and the file. */
  function AfterOp(m: map<string, string>, file: Option<string>, op: Op): (map<string, string>, Option<string>) {
    match op
    case Other(o) => (ApplyToMap(m, o), file)
    case Reset(wipe) => if wipe then (m - {IDENTITY}, None) else (m, file)
    case Start(_, generated) =>
      if IDENTITY in m && IsValidHexKey(m[IDENTITY]) then (m, file)
      else if file.Some? && IsValidHexKey(file.value) then (m[IDENTITY := Trim(file.value)], None)
      else (m[IDENTITY := generated], file)
  }

  lemma StepAtRest(h: Home, suffix: string, keys: set<string>, m: map<string, string>, op: Op)
    requires AtRest(h, suffix, keys, m) && Contracted(op, keys)
    ensures var (m', file') := AfterOp(m, h.file, op);
            AtRest(Step(h, suffix, op), suffix, keys, m') && Step(h, suffix, op).file == file'
    ensures op.Start? ==>
              LoadOrCreate(h, suffix, op.env, op.generated).1 ==
              (if Identity(m, h.file).Some? then Identity(m, h.file).value else op.generated)
  {
    match op
    case Other(o) => StepRefines(h.disk, suffix, keys, m, o);
    case Reset(wipe) => StepRefines(h.disk, suffix, keys, m, DeleteOp(IDENTITY));
    case Start(e, generated) => StartAtRest(h, suffix, keys, m, e, generated);
  }

  lemma StartAtRest(h: Home, suffix: string, keys: set<string>, m: map<string, string>, e: StartEnv, generated: string)
    requires AtRest(h, suffix, keys, m) && Contracted(Start(e, generated), keys)
    ensures var (m', file') := AfterOp(m, h.file, Start(e, generated));
            var (h', key) := LoadOrCreate(h, suffix, e, generated);
            AtRest(h', suffix, keys, m') && h'.file == file'
            && key == if Identity(m, h.file).Some? then Identity(m, h.file).value else generated
  {
    hide Set, AfterGet, Answer, Holds, AccountOf, MarkerFree, Represents, Trim;
    var account := AccountOf(IDENTITY, suffix);
    StepRefines(h.disk, suffix, keys, m, GetOp(IDENTITY, e.first));
    var d := AfterGet(h.disk, account, e.first);
    if IDENTITY in m && IsValidHexKey(m[IDENTITY]) {
    } else if h.file.Some? && IsValidHexKey(h.file.value) {
      var key := Trim(h.file.value);
      StepRefines(d, suffix, keys, m, SetOp(IDENTITY, key, e.store));
      var stored := Set(d, account, key, e.store);
      StepRefines(stored, suffix, keys, m[IDENTITY := key], GetOp(IDENTITY, e.check));
      TrimIdempotent(h.file.value);
    } else {
      StepRefines(d, suffix, keys, m, SetOp(IDENTITY, generated, e.store));
    }
  }

  /** Every operation but a wiping reset keeps the identity, and every start returns it; after a start
      there is one. */
  lemma OperationKeepsIdentity(m: map<string, string>, file: Option<string>, op: Op, keys: set<string>)
    requires Contracted(op, keys)
    ensures var (m', file') := AfterOp(m, file, op);
            && (Identity(m, file).Some? && op != Reset(true) ==> Identity(m', file') == Identity(m, file))
            && (op.Start? ==>
                  Identity(m', file') == (if Identity(m, file).Some? then Identity(m, file) else Some(op.generated)))
            && (op == Reset(true) ==> Identity(m', file') == None)
  {
    if op.Start? {
      HexKeyIsTrimmed(op.generated);
      if file.Some? { TrimIdempotent(file.value); }
    }
  }

  // ---------------------------------------------------------------- runs

  function RunOn(h: Home, suffix: string, ops: seq<Op>): Home
    decreases |ops|
  {
    if ops == [] then h else Step(RunOn(h, suffix, ops[..|ops| - 1]), suffix, ops[|ops| - 1])
  }

  /** What start number `k` of the run returned. */
  function KeyOf(h: Home, suffix: string, ops: seq<Op>, k: nat): string
    requires k < |ops| && ops[k].Start?
  {
    LoadOrCreate(RunOn(h, suffix, ops[..k]), suffix, ops[k].env, ops[k].generated).1
  }

  lemma {:induction false} RunAtRest(h: Home, suffix: string, keys: set<string>, m: map<string, string>, ops: seq<Op>)
    returns (m': map<string, string>)
    requires AtRest(h, suffix, keys, m) && forall k | 0 <= k < |ops| :: Contracted(ops[k], keys)
    ensures AtRest(RunOn(h, suffix, ops), suffix, keys, m')
    ensures Identity(m, h.file).Some? && (forall k | 0 <= k < |ops| :: ops[k] != Reset(true))
            ==> Identity(m', RunOn(h, suffix, ops).file) == Identity(m, h.file)
    decreases |ops|
  {
    if ops == [] {
      m' := m;
    } else {
      var n := |ops| - 1;
      var m1 := RunAtRest(h, suffix, keys, m, ops[..n]);
      var h1 := RunOn(h, suffix, ops[..n]);
      StepAtRest(h1, suffix, keys, m1, ops[n]);
      OperationKeepsIdentity(m1, h1.file, ops[n], keys);
      m' := AfterOp(m1, h1.file, ops[n]).0;
    }
  }

  /** Over every sequence of starts, restarts, other store operations and non-wiping resets, every
      start returns the same key, whatever the keychain does within its contract. */
  lemma IdentityIsStable(h: Home, suffix: string, keys: set<string>, m: map<string, string>, ops: seq<Op>, i: nat,
                         j: nat)
    requires AtRest(h, suffix, keys, m) && forall k | 0 <= k < |ops| :: Contracted(ops[k], keys)
    requires i < j < |ops| && ops[i].Start? && ops[j].Start?
    requires forall k | i < k < j :: ops[k] != Reset(true)
    ensures KeyOf(h, suffix, ops, i) == KeyOf(h, suffix, ops, j)
  {
    hide LoadOrCreate, AfterOp, Identity, Step, AtRest;
    var mi := RunAtRest(h, suffix, keys, m, ops[..i]);
    var hi := RunOn(h, suffix, ops[..i]);
    StepAtRest(hi, suffix, keys, mi, ops[i]);
    OperationKeepsIdentity(mi, hi.file, ops[i], keys);
    var h1 := Step(hi, suffix, ops[i]);
    var m1 := AfterOp(mi, hi.file, ops[i]).0;
    var between := ops[i + 1..j];
    assert forall k | 0 <= k < |between| :: between[k] == ops[i + 1 + k];
    var mj := RunAtRest(h1, suffix, keys, m1, between);
    assert ops[..i + 1][..i] == ops[..i];
    assert RunOn(h, suffix, ops[..i + 1]) == h1;
    RunSplit(h, suffix, ops[..i + 1], between);
    assert ops[..i + 1] + between == ops[..j];
    StepAtRest(RunOn(h, suffix, ops[..j]), suffix, keys, mj, ops[j]);
  }

  lemma {:induction false} RunSplit(h: Home, suffix: string, a: seq<Op>, b: seq<Op>)
    ensures RunOn(h, suffix, a + b) == RunOn(RunOn(h, suffix, a), suffix, b)
    decreases |b|
  {
    if b == [] {
      assert a + b == a;
    } else {
      var n := |b| - 1;
      assert (a + b)[..|a + b| - 1] == a + b[..n];
      RunSplit(h, suffix, a, b[..n]);
    }
  }

  /** The first start adopts the key that was there: the stored one, else the old file's, which is then
      gone and its key in the store; only with neither does it take a generated key. A wiping reset
      leaves none behind. */
  lemma FirstStartAdopts(h: Home, suffix: string, keys: set<string>, m: map<string, string>, e: StartEnv,
                         generated: string)
    requires AtRest(h, suffix, keys, m) && Contracted(Start(e, generated), keys)
    ensures var (h', key) := LoadOrCreate(h, suffix, e, generated);
            && key == (if Identity(m, h.file).Some? then Identity(m, h.file).value else generated)
            && (!(IDENTITY in m && IsValidHexKey(m[IDENTITY])) && h.file.Some? && IsValidHexKey(h.file.value) ==>
                  h'.file == None
                  && forall e': Env | Honest(e') :: Answer(h'.disk, AccountOf(IDENTITY, suffix), e') == Some(key))
    ensures Step(h, suffix, Reset(true)).file == None
            && forall e': Env | Honest(e') ::
                 Answer(Step(h, suffix, Reset(true)).disk, AccountOf(IDENTITY, suffix), e') == None
  {
    hide Answer, LoadOrCreate, Set, AfterGet, Represents, MarkerFree;
    StartAtRest(h, suffix, keys, m, e, generated);
    var (h', key) := LoadOrCreate(h, suffix, e, generated);
    var m' := AfterOp(m, h.file, Start(e, generated)).0;
    forall e': Env | Honest(e') ensures Answer(h'.disk, AccountOf(IDENTITY, suffix), e') == Lookup(m', IDENTITY) {
      StepRefines(h'.disk, suffix, keys, m', GetOp(IDENTITY, e'));
    }
    StepAtRest(h, suffix, keys, m, Reset(true));
    var wiped := Step(h, suffix, Reset(true));
    forall e': Env | Honest(e') ensures Answer(wiped.disk, AccountOf(IDENTITY, suffix), e') == None {
      StepRefines(wiped.disk, suffix, keys, m - {IDENTITY}, GetOp(IDENTITY, e'));
    }
  }

  // ---------------------------------------------------------------- the old file

  /** What is a key: 64 hex digits with nothing but white space around them. */
  lemma ValidKeyExactly(s: string)
    ensures IsValidHexKey(s) <==>
            exists i: nat :: i + 64 <= |s| && IsKeyAt(s, i)
    ensures forall i: nat :: i + 64 <= |s| && IsKeyAt(s, i) ==> Trim(s) == s[i..i + 64]
  {
    forall i: nat | i + 64 <= |s| && IsKeyAt(s, i) ensures Trim(s) == s[i..i + 64] && IsValidHexKey(s) {
      TrimIs(s, i, i + 64);
    }
    if IsValidHexKey(s) {
      var i, j := TrimIsASlice(s);
      assert forall k | 0 <= k < 64 :: IsHexDigit(Trim(s)[k]) && Trim(s)[k] == s[i + k];
      assert IsKeyAt(s, i);
    }
  }

  predicate IsKeyAt(s: string, i: nat) {
    && (forall k | i <= k < i + 64 && k < |s| :: '0' <= s[k] <= '9' || 'a' <= s[k] <= 'f' || 'A' <= s[k] <= 'F')
    && (forall k | 0 <= k < |s| && (k < i || i + 64 <= k) :: IsWhitespace(s[k]))
  }

  lemma {:induction false} TrimStartIs(s: string, i: nat)
    requires i <= |s| && (forall k | 0 <= k < i :: IsWhitespace(s[k])) && (i < |s| ==> !IsWhitespace(s[i]))
    ensures TrimStart(s) == s[i..]
  {
    if i > 0 { TrimStartIs(s[1..], i - 1); }
  }

  lemma {:induction false} TrimEndIs(s: string, j: nat)
    requires j <= |s| && (forall k | j <= k < |s| :: IsWhitespace(s[k])) && (j > 0 ==> !IsWhitespace(s[j - 1]))
    ensures TrimEnd(s) == s[..j]
  {
    if j < |s| {
      TrimEndIs(s[..|s| - 1], j);
      assert s[..|s| - 1][..j] == s[..j];
    } else {
      assert s[..j] == s;
    }
  }

  lemma TrimIs(s: string, i: nat, j: nat)
    requires i < j <= |s| && !IsWhitespace(s[i]) && !IsWhitespace(s[j - 1])
    requires forall k | 0 <= k < |s| && (k < i || j <= k) :: IsWhitespace(s[k])
    ensures Trim(s) == s[i..j]
  {
    TrimStartIs(s, i);
    TrimEndIs(s[i..], j - i);
    assert s[i..][..j - i] == s[i..j];
  }

  lemma {:induction false} FirstSolid(s: string) returns (i: nat)
    ensures i <= |s| && (forall k | 0 <= k < i :: IsWhitespace(s[k])) && (i < |s| ==> !IsWhitespace(s[i]))
  {
    i := 0;
    while i < |s| && IsWhitespace(s[i])
      invariant i <= |s| && forall k | 0 <= k < i :: IsWhitespace(s[k])
    {
      i := i + 1;
    }
  }

  lemma LastSolid(s: string, i: nat) returns (j: nat)
    requires i <= |s|
    ensures i <= j <= |s| && (forall k | j <= k < |s| :: IsWhitespace(s[k])) && (j > i ==> !IsWhitespace(s[j - 1]))
  {
    j := |s|;
    while j > i && IsWhitespace(s[j - 1])
      invariant i <= j <= |s| && forall k | j <= k < |s| :: IsWhitespace(s[k])
      decreases j
    {
      j := j - 1;
    }
  }

  lemma TrimIsASlice(s: string) returns (i: nat, j: nat)
    ensures i <= j <= |s| && Trim(s) == s[i..j]
    ensures forall k | 0 <= k < |s| && (k < i || j <= k) :: IsWhitespace(s[k])
  {
    hide TrimStart, TrimEnd, IsWhitespace;
    i := FirstSolid(s);
    j := LastSolid(s, i);
    TrimStartIs(s, i);
    TrimEndIs(s[i..], j - i);
    assert s[i..][..j - i] == s[i..j];
  }

  /** The store holds the key so that it will be found: in a readable item, or in the file. */
  predicate Kept(d: Disk, account: string, key: string) {
    || (account in d.keychain && d.keychain[account].seen && Trim(d.keychain[account].value) == key)
    || (account in d.files && Trim(d.files[account]) == key)
  }

  /** Whatever the keychain does, in or out of its contract, a start takes away the old key file if and only
      if the key was just read back from the store, which then holds it; the file is never changed. */
  lemma FileGoesOnlyOnceReadBack(h: Home, suffix: string, e: StartEnv, generated: string)
    ensures var (h', key) := LoadOrCreate(h, suffix, e, generated);
            var account := AccountOf(IDENTITY, suffix);
            && (h'.file == h.file || (h.file.Some? && h'.file.None?))
            && (h'.file != h.file ==> key == Trim(h.file.value) && Kept(h'.disk, account, key))
    ensures var account := AccountOf(IDENTITY, suffix);
            var existing := Answer(h.disk, account, e.first);
            !(existing.Some? && IsValidHexKey(existing.value)) && h.file.Some? && IsValidHexKey(h.file.value) ==>
              var stored := Set(AfterGet(h.disk, account, e.first), account, Trim(h.file.value), e.store);
              var readBack := Answer(stored, account, e.check);
              (LoadOrCreate(h, suffix, e, generated).0.file.None?
               <==> readBack.Some? && Trim(readBack.value) == Trim(h.file.value))
  {
    hide Set, AfterGet, Answer, Trim, IsValidHexKey, AccountOf;
    var account := AccountOf(IDENTITY, suffix);
    if h.file.Some? {
      var stored := Set(AfterGet(h.disk, account, e.first), account, Trim(h.file.value), e.store);
      AnsweredIsKept(stored, account, e.check);
    }
  }

  /** What a read has given is where the next one will find it. */
  lemma AnsweredIsKept(d: Disk, account: string, e: Env)
    ensures Answer(d, account, e).Some? ==> Kept(AfterGet(d, account, e), account, Trim(Answer(d, account, e).value))
  {
    hide Trim;
    assert MarkerOf(account) != account by { assert |MarkerOf(account)| != |account|; }
  }

  // ---------------------------------------------------------------- the program

  class Relay {
    const store: Store
    var identityFile: Option<string>

    constructor (store: Store, identityFile: Option<string>)
      ensures this.store == store && View() == Home(store.View(), identityFile)
    {
      this.store := store;
      this.identityFile := identityFile;
    }

    ghost function View(): Home
      reads this, store
    {
      Home(store.View(), identityFile)
    }

    method LoadOrCreateIdentity(e: StartEnv, generated: string) returns (key: string)
      modifies this, store
      ensures (View(), key) == LoadOrCreate(old(View()), store.suffix, e, generated)
    {
      var existing := store.GetSecret(IDENTITY, e.first);
      if existing.Some? && IsValidHexKey(existing.value) { return Trim(existing.value); }
      if identityFile.Some? && IsValidHexKey(identityFile.value) {
        key := Trim(identityFile.value);
        store.SetSecret(IDENTITY, key, e.store);
        var readBack := store.GetSecret(IDENTITY, e.check);
        if readBack.Some? && Trim(readBack.value) == key { identityFile := None; }
        return key;
      }
      store.SetSecret(IDENTITY, generated, e.store);
      return generated;
    }

    method ResetIdentity(wipe: bool)
      modifies this, store
      ensures View() == Wipe(old(View()), store.suffix, wipe)
    {
      if wipe {
        store.DeleteSecret(IDENTITY);
        identityFile := None;
      }
    }
  }
}
