/** The multi-account keystore: keys in a keychain and in fallback files, a list of accounts, a cache
    and the active account.

    The derivation of a public key is a parameter: nothing is assumed of it, not even that different
    secret keys give different public keys. */
module Keystore {
  import opened Prelude
  import SecretStore

  type SecretKey = nat
  type Pubkey = string
  type Derivation = SecretKey -> Pubkey

  /** `listItem` and `listFile` are the two copies of the account list; `cache` and `active` are in
      memory only. */
  datatype Vault = Vault(
    keychain: map<Pubkey, SecretKey>,
    files: map<Pubkey, SecretKey>,
    listItem: Option<seq<Pubkey>>,
    listFile: Option<seq<Pubkey>>,
    cache: map<Pubkey, SecretKey>,
    active: Option<Pubkey>)

  datatype Reading = Hit | Miss | Failure

  /** The keychain's behaviour during one command: reading a key, reading the list (each time), writing
      a key and what that reported, and writing the list. */
  datatype Env = Env(
    readKey: Reading, readList: bool, rereadList: bool,
    writeKey: SecretStore.Fate, reportsOk: bool, writeList: SecretStore.Fate)

  datatype Error = NoKey | KeychainFailed | InvalidKey | MalformedEvent | PubkeyMismatch

  const EMPTY := Vault(map[], map[], None, None, map[], None)

  // ---------------------------------------------------------------- account list

  function LoadList(v: Vault, readable: bool): seq<Pubkey> {
    if readable && v.listItem.Some? then v.listItem.value
    else if v.listFile.Some? then v.listFile.value
    else []
  }

  function SaveList(v: Vault, list: seq<Pubkey>, fate: SecretStore.Fate): Vault {
    v.(listFile := Some(list),
       listItem := match fate case Installed => Some(list) case Lost => None case KeptOld => v.listItem)
  }

  function AddToList(v: Vault, pk: Pubkey, e: Env): Vault {
    var list := LoadList(v, e.readList);
    if pk in list then v else SaveList(v, list + [pk], e.writeList)
  }

  function Without(list: seq<Pubkey>, pk: Pubkey): seq<Pubkey> {
    if list == [] then []
    else if list[0] == pk then Without(list[1..], pk)
    else [list[0]] + Without(list[1..], pk)
  }

  // ---------------------------------------------------------------- keys

  function StoreKey(v: Vault, pk: Pubkey, sk: SecretKey, fate: SecretStore.Fate): Vault {
    match fate
    case Installed => v.(keychain := v.keychain[pk := sk])
    case Lost => v.(keychain := v.keychain - {pk})
    case KeptOld => v
  }

  /** `load_account_key`: cache, then keychain, then fallback file. */
  function Load(v: Vault, pk: Pubkey, e: Env): (Vault, Result<SecretKey, Error>) {
    if pk in v.cache then (v, Ok(v.cache[pk]))
    else if e.readKey.Failure? then (v, Err(KeychainFailed))
    else if e.readKey.Hit? && pk in v.keychain then
      var sk := v.keychain[pk];
      (v.(cache := v.cache[pk := sk], files := v.files[pk := sk]), Ok(sk))
    else if pk in v.files then
      var sk := v.files[pk];
      (StoreKey(v.(cache := v.cache[pk := sk]), pk, sk, e.writeKey), Ok(sk))
    else (v, Err(NoKey))
  }

  /** Caches a key and makes it active, then stores it in both tiers and lists it. */
  function Install(v: Vault, pub: Derivation, sk: SecretKey, e: Env): Vault {
    var pk := pub(sk);
    var cached := v.(cache := v.cache[pk := sk], active := Some(pk));
    var stored := StoreKey(cached, pk, sk, e.writeKey);
    AddToList(stored.(files := stored.files[pk := sk]), pk, e)
  }

  /** `get_active_secret_key`; `generated` is the new key when one may be generated. */
  function ActiveKey(v: Vault, pub: Derivation, generated: Option<SecretKey>, e: Env)
    : (Vault, Result<SecretKey, Error>)
  {
    if v.active.Some? then Load(v, v.active.value, e)
    else
      var accounts := LoadList(v, e.readList);
      if accounts != [] then Load(v.(active := Some(accounts[0])), accounts[0], e)
      else if generated.None? then (v, Err(NoKey))
      else (Install(v, pub, generated.value, e), Ok(generated.value))
  }

  // ---------------------------------------------------------------- commands

  datatype Command =
    | GetPublicKey(generated: SecretKey)
    | Generate(key: SecretKey)
    | Import(parsed: Option<SecretKey>)
    | Delete(target: Option<Pubkey>)
    | Switch(pubkey: Pubkey)
    | ClearActive
    | Sign(eventPubkey: Option<string>)
    | Restart

  function ImportKey(v: Vault, pub: Derivation, parsed: Option<SecretKey>, e: Env): (Vault, Result<SecretKey, Error>) {
    if parsed.None? then (v, Err(InvalidKey)) else
    var sk := parsed.value;
    var pk := pub(sk);
    var stored := StoreKey(v, pk, sk, e.writeKey);
    if !e.reportsOk then (stored, Err(KeychainFailed))
    else
      var filed := stored.(files := stored.files[pk := sk], cache := stored.cache[pk := sk], active := Some(pk));
      (AddToList(filed, pk, e), Ok(sk))
  }

  function DeleteKey(v: Vault, target: Option<Pubkey>, e: Env): Vault {
    if target.None? && v.active.None? then v.(cache := map[]) else
    var pk := if target.Some? then target.value else v.active.value;
    var gone := v.(keychain := v.keychain - {pk}, files := v.files - {pk});
    var listed := SaveList(gone, Without(LoadList(gone, e.readList), pk), e.writeList);
    var uncached := listed.(cache := listed.cache - {pk});
    if uncached.active != Some(pk) then uncached
    else
      var accounts := LoadList(uncached, e.rereadList);
      uncached.(active := if accounts == [] then None else Some(accounts[0]))
  }

  /** ASCII case-insensitive equality. */
  predicate EqIgnoreCase(a: string, b: string) {
    |a| == |b| && forall i | 0 <= i < |a| :: Lower(a[i]) == Lower(b[i])
  }

  function Lower(c: char): char {
    if 'A' <= c <= 'Z' then (c as int + 32) as char else c
  }

  /** The key an event is signed with, if it is signed. */
  function SignEvent(v: Vault, pub: Derivation, eventPubkey: Option<string>, e: Env)
    : (Vault, Result<SecretKey, Error>)
  {
    var (v', r) := ActiveKey(v, pub, None, e);
    if r.Err? then (v', r)
    else if eventPubkey.None? then (v', Err(MalformedEvent))
    else if !EqIgnoreCase(eventPubkey.value, pub(r.value)) then (v', Err(PubkeyMismatch))
    else (v', r)
  }

  function Execute(v: Vault, pub: Derivation, c: Command, e: Env): Vault {
    match c
    case GetPublicKey(generated) => ActiveKey(v, pub, Some(generated), e).0
    case Generate(sk) => Install(v, pub, sk, e)
    case Import(parsed) => ImportKey(v, pub, parsed, e).0
    case Delete(target) => DeleteKey(v, target, e)
    case Switch(pk) =>
      var (v', r) := Load(v, pk, e);
      if r.Ok? then v'.(active := Some(pk)) else v'
    case ClearActive => v.(active := None)
    case Sign(eventPubkey) => SignEvent(v, pub, eventPubkey, e).0
    case Restart => v.(cache := map[], active := None)
  }

  // ---------------------------------------------------------------- consistency

  /** The account list, as its file has it. */
  function Accounts(v: Vault): seq<Pubkey> {
    if v.listFile.Some? then v.listFile.value else []
  }

  function Listed(v: Vault): set<Pubkey> {
    set pk | pk in Accounts(v)
  }

  ghost predicate Distinct(list: seq<Pubkey>) {
    forall i, j | 0 <= i < j < |list| :: list[i] != list[j]
  }

  ghost predicate Derives(keys: map<Pubkey, SecretKey>, pub: Derivation) {
    forall pk | pk in keys :: pub(keys[pk]) == pk
  }

  ghost predicate ListOk(v: Vault) {
    (v.listItem.Some? ==> v.listItem.value == Accounts(v)) && Distinct(Accounts(v))
  }

  ghost predicate KeysOk(v: Vault, pub: Derivation) {
    && v.keychain.Keys <= v.files.Keys && v.cache.Keys <= v.files.Keys
    && Derives(v.keychain, pub) && Derives(v.files, pub) && Derives(v.cache, pub)
  }

  ghost predicate Consistent(v: Vault, pub: Derivation) {
    ListOk(v) && KeysOk(v, pub) && Listed(v) == v.files.Keys
    && (v.active.Some? ==> v.active.value in Listed(v))
  }

  /** What is contracted of the keychain: a list write installs the new list or leaves none, and a key
      write that reports failure has not installed the key. Reads may fail or miss at will. */
  predicate Reliable(e: Env) {
    e.writeList != SecretStore.KeptOld && (!e.reportsOk ==> e.writeKey != SecretStore.Installed)
  }

  /** The account can be added: its list write does not keep an old list, unless that names it already
      or there is none. */
  predicate AddsCleanly(v: Vault, pk: Pubkey, e: Env) {
    e.writeList != SecretStore.KeptOld || v.listItem.None? || pk in Listed(v)
  }

  /** The account can be removed: its list write does not keep an old list that names it. */
  predicate RemovesCleanly(v: Vault, pk: Pubkey, e: Env) {
    e.writeList != SecretStore.KeptOld || v.listItem.None? || pk !in Listed(v)
  }

  /** What must hold of the keychain for a command, given the keystore before it. */
  predicate Safe(v: Vault, pub: Derivation, c: Command, e: Env) {
    match c
    case GetPublicKey(generated) => v.active.None? && Accounts(v) == [] ==> AddsCleanly(v, pub(generated), e)
    case Generate(sk) => AddsCleanly(v, pub(sk), e)
    case Import(parsed) =>
      parsed.Some? ==>
        (if e.reportsOk then AddsCleanly(v, pub(parsed.value), e)
         else e.writeKey != SecretStore.Installed || pub(parsed.value) in Listed(v))
    case Delete(target) =>
      (target.Some? ==> RemovesCleanly(v, target.value, e))
      && (target.None? && v.active.Some? ==> RemovesCleanly(v, v.active.value, e))
    case _ => true
  }

  lemma ReliableIsSafe(v: Vault, pub: Derivation, c: Command, e: Env)
    requires Reliable(e)
    ensures Safe(v, pub, c, e)
  {
  }

  lemma {:induction false} WithoutIs(list: seq<Pubkey>, pk: Pubkey)
    ensures forall x :: x in Without(list, pk) <==> x in list && x != pk
    ensures Distinct(list) ==> Distinct(Without(list, pk))
  {
    if list != [] {
      WithoutIs(list[1..], pk);
      assert list == [list[0]] + list[1..];
      if Distinct(list) {
        assert Distinct(list[1..]);
        assert list[0] !in list[1..];
      }
    }
  }

  lemma LoadListIsAccounts(v: Vault, readable: bool)
    requires ListOk(v)
    ensures LoadList(v, readable) == Accounts(v)
  {
  }

  lemma DerivesPut(keys: map<Pubkey, SecretKey>, pub: Derivation, pk: Pubkey, sk: SecretKey)
    requires Derives(keys, pub)
    ensures Derives(keys - {pk}, pub)
    ensures pub(sk) == pk ==> Derives(keys[pk := sk], pub)
  {
  }

  /** A key of account `pk` goes to the file, perhaps to the cache, and as it may to the keychain. */
  lemma KeysPut(v: Vault, v': Vault, pub: Derivation, pk: Pubkey, sk: SecretKey, fate: SecretStore.Fate)
    requires KeysOk(v, pub) && pub(sk) == pk
    requires v'.files == v.files[pk := sk] && (v'.cache == v.cache || v'.cache == v.cache[pk := sk])
    requires v'.keychain == StoreKey(v, pk, sk, fate).keychain
    ensures KeysOk(v', pub) && v'.files.Keys == v.files.Keys + {pk}
  {
    hide Derives;
    DerivesPut(v.files, pub, pk, sk);
    DerivesPut(v.cache, pub, pk, sk);
    DerivesPut(v.keychain, pub, pk, sk);
  }

  lemma LoadConsistent(v: Vault, pub: Derivation, pk: Pubkey, e: Env)
    requires Consistent(v, pub)
    ensures var (v', r) := Load(v, pk, e);
            && Consistent(v', pub)
            && v'.active == v.active && v'.listFile == v.listFile && v'.listItem == v.listItem
            && (r.Ok? ==> pub(r.value) == pk && pk in Listed(v))
            && (pk !in Listed(v) ==> r.Err?)
  {
    hide ListOk, Listed, KeysOk;
    var (v', r) := Load(v, pk, e);
    KeysDerive(v, pub, pk);
    if r.Ok? && pk !in v.cache {
      if e.readKey.Hit? && pk in v.keychain {
        KeysPut(v, v', pub, pk, r.value, SecretStore.KeptOld);
      } else {
        assert v.files[pk := r.value] == v.files;
        KeysPut(v, v', pub, pk, r.value, e.writeKey);
      }
    }
    SameLists(v, v');
  }

  lemma KeysDerive(v: Vault, pub: Derivation, pk: Pubkey)
    requires KeysOk(v, pub)
    ensures pk in v.cache ==> pub(v.cache[pk]) == pk && pk in v.files
    ensures pk in v.keychain ==> pub(v.keychain[pk]) == pk && pk in v.files
    ensures pk in v.files ==> pub(v.files[pk]) == pk
  {
  }

  lemma SameLists(v: Vault, v': Vault)
    requires v'.listFile == v.listFile && v'.listItem == v.listItem
    ensures Listed(v') == Listed(v) && (ListOk(v) <==> ListOk(v'))
  {
  }

  /** The list grows by the new account, if it is one. */
  lemma AddToListIs(v: Vault, pk: Pubkey, e: Env)
    requires AddsCleanly(v, pk, e) && ListOk(v)
    ensures var v' := AddToList(v, pk, e);
            && v' == v.(listItem := v'.listItem, listFile := v'.listFile)
            && ListOk(v') && Listed(v') == Listed(v) + {pk}
  {
    assert forall i | 0 <= i < |Accounts(v)| :: Accounts(v)[i] in Accounts(v);
  }

  lemma InstallConsistent(v: Vault, pub: Derivation, sk: SecretKey, e: Env)
    requires Consistent(v, pub) && AddsCleanly(v, pub(sk), e)
    ensures var v' := Install(v, pub, sk, e);
            Consistent(v', pub) && v'.active == Some(pub(sk)) && Listed(v') == Listed(v) + {pub(sk)}
  {
    hide AddToList, ListOk, Listed, KeysOk;
    var pk := pub(sk);
    var cached := v.(cache := v.cache[pk := sk], active := Some(pk));
    var stored := StoreKey(cached, pk, sk, e.writeKey);
    var filed := stored.(files := stored.files[pk := sk]);
    KeysPut(v, filed, pub, pk, sk, e.writeKey);
    SameLists(v, filed);
    AddToListIs(filed, pk, e);
    SameKeys(filed, AddToList(filed, pk, e), pub);
  }

  lemma SameKeys(v: Vault, v': Vault, pub: Derivation)
    requires v'.keychain == v.keychain && v'.files == v.files && v'.cache == v.cache
    ensures KeysOk(v', pub) <==> KeysOk(v, pub)
  {
  }

  lemma ImportConsistent(v: Vault, pub: Derivation, parsed: Option<SecretKey>, e: Env)
    requires Consistent(v, pub) && Safe(v, pub, Import(parsed), e)
    ensures var (v', r) := ImportKey(v, pub, parsed, e);
            && Consistent(v', pub)
            && Listed(v') == Listed(v) + (if r.Ok? then {pub(r.value)} else {})
            && (r.Ok? ==> parsed == Some(r.value) && v'.active == Some(pub(r.value)))
  {
    hide AddToList, ListOk, Listed, KeysOk;
    if parsed.Some? {
      var sk := parsed.value;
      var pk := pub(sk);
      var stored := StoreKey(v, pk, sk, e.writeKey);
      if e.reportsOk {
        var filed := stored.(files := stored.files[pk := sk], cache := stored.cache[pk := sk], active := Some(pk));
        KeysPut(v, filed, pub, pk, sk, e.writeKey);
        SameLists(v, filed);
        AddToListIs(filed, pk, e);
        SameKeys(filed, AddToList(filed, pk, e), pub);
      } else {
        RefusedImportKeys(v, pub, sk, e);
        SameLists(v, stored);
      }
    }
  }

  lemma RefusedImportKeys(v: Vault, pub: Derivation, sk: SecretKey, e: Env)
    requires KeysOk(v, pub) && (e.writeKey != SecretStore.Installed || pub(sk) in v.files)
    ensures KeysOk(StoreKey(v, pub(sk), sk, e.writeKey), pub)
  {
    DerivesPut(v.keychain, pub, pub(sk), sk);
  }

  /** What a deletion does to the lists. */
  lemma RemovedList(v: Vault, pk: Pubkey, e: Env)
    requires ListOk(v) && e.writeList != SecretStore.KeptOld
    ensures var v' := SaveList(v, Without(LoadList(v, e.readList), pk), e.writeList);
            ListOk(v') && Listed(v') == Listed(v) - {pk}
  {
    WithoutIs(Accounts(v), pk);
  }

  lemma DeleteConsistent(v: Vault, pub: Derivation, target: Option<Pubkey>, e: Env)
    requires Consistent(v, pub) && e.writeList != SecretStore.KeptOld
    ensures var v' := DeleteKey(v, target, e);
            && Consistent(v', pub)
            && (target.Some? || v.active.Some? ==>
                  var pk := if target.Some? then target.value else v.active.value;
                  Listed(v') == Listed(v) - {pk} && v'.active != Some(pk))
            && (target.None? && v.active.None? ==> Listed(v') == Listed(v))
  {
    hide ListOk, Listed, KeysOk, LoadList;
    if target.Some? || v.active.Some? {
      var pk := if target.Some? then target.value else v.active.value;
      var gone := v.(keychain := v.keychain - {pk}, files := v.files - {pk});
      SameLists(v, gone);
      RemovedList(gone, pk, e);
      var listed := SaveList(gone, Without(LoadList(gone, e.readList), pk), e.writeList);
      var uncached := listed.(cache := listed.cache - {pk});
      SameLists(listed, uncached);
      KeysRemoved(v, uncached, pub, pk);
      LoadListIsAccounts(uncached, e.rereadList);
      FirstListed(uncached);
      var v' := DeleteKey(v, target, e);
      SameLists(uncached, v');
      SameKeys(uncached, v', pub);
    } else {
      var v' := DeleteKey(v, target, e);
      SameLists(v, v');
      EmptyCacheOk(v, pub);
    }
  }

  lemma EmptyCacheOk(v: Vault, pub: Derivation)
    requires KeysOk(v, pub)
    ensures KeysOk(v.(cache := map[]), pub)
  {
  }

  lemma FirstListed(v: Vault)
    ensures Accounts(v) != [] ==> Accounts(v)[0] in Listed(v)
  {
  }

  lemma KeysRemoved(v: Vault, v': Vault, pub: Derivation, pk: Pubkey)
    requires KeysOk(v, pub)
    requires v'.keychain == v.keychain - {pk} && v'.files == v.files - {pk} && v'.cache == v.cache - {pk}
    ensures KeysOk(v', pub) && v'.files.Keys == v.files.Keys - {pk}
  {
    hide Derives;
    DerivesPut(v.files, pub, pk, 0);
    DerivesPut(v.cache, pub, pk, 0);
    DerivesPut(v.keychain, pub, pk, 0);
  }

  lemma ActiveKeyConsistent(v: Vault, pub: Derivation, generated: Option<SecretKey>, e: Env)
    requires Consistent(v, pub)
    requires generated.Some? ==> Safe(v, pub, GetPublicKey(generated.value), e)
    ensures var (v', r) := ActiveKey(v, pub, generated, e);
            && Consistent(v', pub)
            && (r.Ok? ==> v'.active == Some(pub(r.value)) && pub(r.value) in Listed(v'))
            && Listed(v) <= Listed(v') <= Listed(v) + (if generated.Some? then {pub(generated.value)} else {})
            && (v.active.Some? ==> v'.active == v.active)
  {
    hide Load, Install, ListOk, Listed, KeysOk;
    var (v', r) := ActiveKey(v, pub, generated, e);
    LoadListIsAccounts(v, e.readList);
    if v.active.Some? {
      LoadConsistent(v, pub, v.active.value, e);
      SameLists(v, v');
    } else if LoadList(v, e.readList) != [] {
      var first := LoadList(v, e.readList)[0];
      var chosen := v.(active := Some(first));
      FirstListed(v);
      SameLists(v, chosen);
      SameKeys(v, chosen, pub);
      LoadConsistent(chosen, pub, first, e);
      SameLists(chosen, v');
    } else if generated.Some? {
      InstallConsistent(v, pub, generated.value, e);
    }
  }

  /** Whether the command brings in a key of account `pk`. */
  predicate BringsIn(pub: Derivation, c: Command, pk: Pubkey) {
    match c
    case GetPublicKey(generated) => pub(generated) == pk
    case Generate(sk) => pub(sk) == pk
    case Import(parsed) => parsed.Some? && pub(parsed.value) == pk
    case _ => false
  }

  lemma CommandConsistent(v: Vault, pub: Derivation, c: Command, e: Env)
    requires Consistent(v, pub) && Safe(v, pub, c, e)
    ensures Consistent(Execute(v, pub, c, e), pub)
    ensures forall pk :: pk in Listed(Execute(v, pub, c, e)) ==> pk in Listed(v) || BringsIn(pub, c, pk)
  {
    hide Load, ActiveKey, Install, ImportKey, DeleteKey, ListOk, Listed, KeysOk;
    var v' := Execute(v, pub, c, e);
    match c
    case GetPublicKey(generated) => ActiveKeyConsistent(v, pub, Some(generated), e);
    case Generate(sk) => InstallConsistent(v, pub, sk, e);
    case Import(parsed) => ImportConsistent(v, pub, parsed, e);
    case Delete(target) => DeleteSafely(v, pub, target, e);
    case Switch(pk) =>
      LoadConsistent(v, pub, pk, e);
      SameLists(v, v');
      SameLists(Load(v, pk, e).0, v');
      SameKeys(Load(v, pk, e).0, v', pub);
    case ClearActive =>
      SameLists(v, v');
      SameKeys(v, v', pub);
    case Sign(_) => ActiveKeyConsistent(v, pub, None, e);
    case Restart =>
      SameLists(v, v');
      EmptyCacheOk(v, pub);
      SameKeys(v.(cache := map[]), v', pub);
  }

  // ---------------------------------------------------------------- runs

  datatype Call = Call(command: Command, env: Env)

  function Run(v: Vault, pub: Derivation, calls: seq<Call>): Vault
    decreases |calls|
  {
    if calls == [] then v
    else Execute(Run(v, pub, calls[..|calls| - 1]), pub, calls[|calls| - 1].command, calls[|calls| - 1].env)
  }

  ghost predicate AllReliable(calls: seq<Call>) {
    forall k | 0 <= k < |calls| :: Reliable(calls[k].env)
  }

  /** After every sequence of commands and restarts the keystore is consistent: every key derives the
      public key it is filed under, the list has no duplicates and names exactly the stored keys, and
      the active account is a listed one or none. */
  lemma {:induction false} RunConsistent(v: Vault, pub: Derivation, calls: seq<Call>)
    requires Consistent(v, pub) && AllReliable(calls)
    ensures Consistent(Run(v, pub, calls), pub)
    decreases |calls|
  {
    if calls != [] {
      var n := |calls| - 1;
      RunConsistent(v, pub, calls[..n]);
      ReliableIsSafe(Run(v, pub, calls[..n]), pub, calls[n].command, calls[n].env);
      CommandConsistent(Run(v, pub, calls[..n]), pub, calls[n].command, calls[n].env);
    }
  }

  lemma EmptyConsistent(pub: Derivation)
    ensures Consistent(EMPTY, pub)
  {
  }

  /** Whatever happened before, an event that gets signed is signed by the key whose public key the
      event names, and that account is active and listed. */
  lemma SignedByTheNamedKey(pub: Derivation, calls: seq<Call>, eventPubkey: Option<string>, e: Env)
    requires AllReliable(calls)
    ensures var (v', r) := SignEvent(Run(EMPTY, pub, calls), pub, eventPubkey, e);
            r.Ok? ==>
              && eventPubkey.Some? && EqIgnoreCase(eventPubkey.value, pub(r.value))
              && v'.active == Some(pub(r.value)) && pub(r.value) in Listed(v')
  {
    hide Consistent, ActiveKey;
    EmptyConsistent(pub);
    RunConsistent(EMPTY, pub, calls);
    ActiveKeyConsistent(Run(EMPTY, pub, calls), pub, None, e);
  }

  /** A deleted account's key does not load again, nor does the account become active or listed again,
      until a key of that account is brought in anew. */
  lemma {:induction false} DeletedStaysGone(pub: Derivation, before: seq<Call>, pk: Pubkey, e: Env, after: seq<Call>,
                                            load: Env)
    requires AllReliable(before) && Reliable(e) && AllReliable(after)
    requires forall k | 0 <= k < |after| :: !BringsIn(pub, after[k].command, pk)
    ensures var v := Run(Execute(Run(EMPTY, pub, before), pub, Delete(Some(pk)), e), pub, after);
            && Consistent(v, pub) && pk !in Listed(v) && v.active != Some(pk)
            && Load(v, pk, load).1.Err?
    decreases |after|
  {
    hide DeleteKey, Load, ListOk, Listed, KeysOk;
    EmptyConsistent(pub);
    RunConsistent(EMPTY, pub, before);
    var gone := Execute(Run(EMPTY, pub, before), pub, Delete(Some(pk)), e);
    if after == [] {
      DeleteConsistent(Run(EMPTY, pub, before), pub, Some(pk), e);
      LoadConsistent(gone, pub, pk, load);
    } else {
      var n := |after| - 1;
      DeletedStaysGone(pub, before, pk, e, after[..n], load);
      ReliableIsSafe(Run(gone, pub, after[..n]), pub, after[n].command, after[n].env);
      CommandConsistent(Run(gone, pub, after[..n]), pub, after[n].command, after[n].env);
      LoadConsistent(Run(gone, pub, after), pub, pk, load);
    }
  }

  /** An imported key survives a restart: unless the keychain then fails outright, switching to its
      account loads that very key. */
  lemma ImportedKeySurvivesRestart(v: Vault, pub: Derivation, sk: SecretKey, e: Env, load: Env)
    requires Consistent(v, pub) && Reliable(e) && e.reportsOk && e.writeKey != SecretStore.KeptOld
    requires load.readKey != Failure
    ensures var stopped := Execute(Execute(v, pub, Import(Some(sk)), e), pub, Restart, e);
            Load(stopped, pub(sk), load).1 == Ok(sk)
            && Execute(stopped, pub, Switch(pub(sk)), load).active == Some(pub(sk))
  {
    hide AddToList, ListOk, Listed, KeysOk;
    var pk := pub(sk);
    var stored := StoreKey(v, pk, sk, e.writeKey);
    SameLists(v, stored.(files := stored.files[pk := sk], cache := stored.cache[pk := sk], active := Some(pk)));
    AddToListIs(stored.(files := stored.files[pk := sk], cache := stored.cache[pk := sk], active := Some(pk)), pk, e);
  }

  // ---------------------------------------------------------------- exactly when

  /** A command keeps the keystore consistent if and only if the keychain behaves as `Safe` says. */
  lemma CommandConsistentExactly(v: Vault, pub: Derivation, c: Command, e: Env)
    requires Consistent(v, pub)
    ensures Consistent(Execute(v, pub, c, e), pub) <==> Safe(v, pub, c, e)
  {
    hide Consistent, ActiveKey, Install, ImportKey, DeleteKey, AddsCleanly, RemovesCleanly;
    if Safe(v, pub, c, e) {
      CommandConsistent(v, pub, c, e);
    } else {
      match c
      case GetPublicKey(generated) =>
        LoadsNoAccounts(v, pub, e);
        InstallBreaks(v, pub, generated, e);
        ActiveKeyInstalls(v, pub, generated, e);
      case Generate(sk) => InstallBreaks(v, pub, sk, e);
      case Import(parsed) => ImportBreaks(v, pub, parsed.value, e);
      case Delete(target) => DeleteBreaks(v, pub, target, e);
    }
  }

  lemma LoadsNoAccounts(v: Vault, pub: Derivation, e: Env)
    requires Consistent(v, pub)
    ensures LoadList(v, e.readList) == Accounts(v)
  {
  }

  lemma ActiveKeyInstalls(v: Vault, pub: Derivation, generated: SecretKey, e: Env)
    requires v.active.None? && LoadList(v, e.readList) == []
    ensures ActiveKey(v, pub, Some(generated), e).0 == Install(v, pub, generated, e)
  {
  }

  /** Adding an account while the old list item is kept leaves two lists that differ. */
  lemma AddBreaks(v: Vault, pk: Pubkey, e: Env)
    requires ListOk(v) && !AddsCleanly(v, pk, e)
    ensures !ListOk(AddToList(v, pk, e))
  {
    var v' := AddToList(v, pk, e);
    assert pk in Accounts(v') && pk !in v'.listItem.value;
  }

  lemma InstallBreaks(v: Vault, pub: Derivation, sk: SecretKey, e: Env)
    requires Consistent(v, pub) && !AddsCleanly(v, pub(sk), e)
    ensures !Consistent(Install(v, pub, sk, e), pub)
  {
    hide ListOk, Listed, KeysOk, AddToList;
    var pk := pub(sk);
    var cached := v.(cache := v.cache[pk := sk], active := Some(pk));
    var stored := StoreKey(cached, pk, sk, e.writeKey);
    var filed := stored.(files := stored.files[pk := sk]);
    SameLists(v, filed);
    AddBreaks(filed, pk, e);
  }

  lemma ImportBreaks(v: Vault, pub: Derivation, sk: SecretKey, e: Env)
    requires Consistent(v, pub) && !Safe(v, pub, Import(Some(sk)), e)
    ensures !Consistent(ImportKey(v, pub, Some(sk), e).0, pub)
  {
    hide ListOk, Listed, Derives, AddToList;
    var pk := pub(sk);
    var stored := StoreKey(v, pk, sk, e.writeKey);
    if e.reportsOk {
      var filed := stored.(files := stored.files[pk := sk], cache := stored.cache[pk := sk], active := Some(pk));
      SameLists(v, filed);
      AddBreaks(filed, pk, e);
    } else {
      SameLists(v, stored);
      assert pk in stored.keychain.Keys;
    }
  }

  /** The same, but that the list is written if there is an old one, and lost if there is none. */
  function WithListWritten(v: Vault, e: Env): Env {
    e.(writeList := if v.listItem.Some? then SecretStore.Installed else SecretStore.Lost)
  }

  lemma DeleteSafely(v: Vault, pub: Derivation, target: Option<Pubkey>, e: Env)
    requires Consistent(v, pub) && Safe(v, pub, Delete(target), e)
    ensures var v' := DeleteKey(v, target, e);
            Consistent(v', pub) && Listed(v') <= Listed(v)
  {
    hide ListOk, Listed, KeysOk, LoadList, DeleteKey;
    if target.None? && v.active.Some? { DeleteActive(v, e); }
    if e.writeList == SecretStore.KeptOld && (target.Some? || v.active.Some?) {
      var pk := if target.Some? then target.value else v.active.value;
      KeptOldListHarmless(v, pk, e);
      DeleteConsistent(v, pub, Some(pk), WithListWritten(v, e));
    } else if e.writeList == SecretStore.KeptOld {
      DeleteNothing(v, e);
      DeleteConsistent(v, pub, None, e.(writeList := SecretStore.Lost));
    } else {
      DeleteConsistent(v, pub, target, e);
    }
  }

  lemma DeleteNothing(v: Vault, e: Env)
    requires v.active.None?
    ensures DeleteKey(v, None, e) == DeleteKey(v, None, e.(writeList := SecretStore.Lost))
  {
  }

  lemma DeleteActive(v: Vault, e: Env)
    requires v.active.Some?
    ensures DeleteKey(v, None, e) == DeleteKey(v, v.active, e)
  {
  }

  lemma DeleteBreaks(v: Vault, pub: Derivation, target: Option<Pubkey>, e: Env)
    requires Consistent(v, pub) && !Safe(v, pub, Delete(target), e)
    ensures !Consistent(DeleteKey(v, target, e), pub)
  {
    hide Listed, KeysOk, LoadList, DeleteKey, ListOk;
    if target.None? { DeleteActive(v, e); }
    KeptOldListStale(v, if target.Some? then target.value else v.active.value, e);
  }

  lemma RunPrefix(v: Vault, pub: Derivation, calls: seq<Call>, k: nat)
    requires k < |calls|
    ensures Run(v, pub, calls[..k + 1]) == Execute(Run(v, pub, calls[..k]), pub, calls[k].command, calls[k].env)
  {
    assert calls[..k + 1][..k] == calls[..k];
  }

  ghost predicate SafeAt(v: Vault, pub: Derivation, calls: seq<Call>, k: nat)
    requires k < |calls|
  {
    Safe(Run(v, pub, calls[..k]), pub, calls[k].command, calls[k].env)
  }

  lemma {:induction false} ConsistentSoFar(v: Vault, pub: Derivation, calls: seq<Call>, k: nat)
    requires Consistent(v, pub) && k <= |calls| && forall j | 0 <= j < k :: SafeAt(v, pub, calls, j)
    ensures Consistent(Run(v, pub, calls[..k]), pub)
  {
    hide Consistent, Safe, Execute, Run;
    if k == 0 {
      assert calls[..0] == [];
      RunNothing(v, pub);
    } else {
      ConsistentSoFar(v, pub, calls, k - 1);
      RunPrefix(v, pub, calls, k - 1);
      assert SafeAt(v, pub, calls, k - 1);
      CommandConsistentExactly(Run(v, pub, calls[..k - 1]), pub, calls[k - 1].command, calls[k - 1].env);
    }
  }

  lemma RunNothing(v: Vault, pub: Derivation)
    ensures Run(v, pub, []) == v
  {
  }

  /** The keystore is consistent at every moment of a run if and only if the keychain was safe for every
      command of it. */
  lemma RunConsistentExactly(v: Vault, pub: Derivation, calls: seq<Call>)
    requires Consistent(v, pub)
    ensures (forall k | 0 <= k <= |calls| :: Consistent(Run(v, pub, calls[..k]), pub))
            <==> (forall k | 0 <= k < |calls| :: SafeAt(v, pub, calls, k))
  {
    hide Consistent, Safe, Execute, Run, SafeAt;
    if forall k | 0 <= k < |calls| :: SafeAt(v, pub, calls, k) {
      forall k | 0 <= k <= |calls| ensures Consistent(Run(v, pub, calls[..k]), pub) {
        ConsistentSoFar(v, pub, calls, k);
      }
    }
    if forall k | 0 <= k <= |calls| :: Consistent(Run(v, pub, calls[..k]), pub) {
      forall k | 0 <= k < |calls| ensures SafeAt(v, pub, calls, k) {
        var m := k + 1;
        assert Consistent(Run(v, pub, calls[..k]), pub) && Consistent(Run(v, pub, calls[..m]), pub);
        ConsistentIsSafe(v, pub, calls, k);
      }
    }
  }

  lemma ConsistentIsSafe(v: Vault, pub: Derivation, calls: seq<Call>, k: nat)
    requires k < |calls| && Consistent(Run(v, pub, calls[..k]), pub) && Consistent(Run(v, pub, calls[..k + 1]), pub)
    ensures SafeAt(v, pub, calls, k)
  {
    hide Consistent, Safe, Execute, Run;
    RunPrefix(v, pub, calls, k);
    CommandConsistentExactly(Run(v, pub, calls[..k]), pub, calls[k].command, calls[k].env);
  }

  lemma {:induction false} WithoutAbsent(list: seq<Pubkey>, pk: Pubkey)
    requires pk !in list
    ensures Without(list, pk) == list
  {
    if list != [] {
      assert pk != list[0] && pk !in list[1..];
      WithoutAbsent(list[1..], pk);
    }
  }

  lemma KeptOldListStale(v: Vault, pk: Pubkey, e: Env)
    requires ListOk(v) && v.listItem.Some? && pk in Listed(v) && e.writeList == SecretStore.KeptOld
    ensures !ListOk(DeleteKey(v, Some(pk), e))
  {
    WithoutIs(Accounts(v), pk);
    var v' := DeleteKey(v, Some(pk), e);
    assert pk in v'.listItem.value && pk !in Accounts(v');
  }

  /** With no old list item, or an account that was not listed, keeping the item is as good as losing it
      or as writing it. */
  lemma KeptOldListHarmless(v: Vault, pk: Pubkey, e: Env)
    requires ListOk(v) && e.writeList == SecretStore.KeptOld && (v.listItem.None? || pk !in Listed(v))
    ensures DeleteKey(v, Some(pk), e) ==
            DeleteKey(v, Some(pk), WithListWritten(v, e))
  {
    if v.listItem.Some? { WithoutAbsent(Accounts(v), pk); }
  }

  // ---------------------------------------------------------------- what succeeds

  /** The account's key can be had: it is cached, or the keychain gives it, or the file does and the keychain
      did not fail. */
  predicate CanLoad(v: Vault, pk: Pubkey, e: Env) {
    pk in v.cache || (e.readKey != Failure && ((e.readKey == Hit && pk in v.keychain) || pk in v.files))
  }

  /** Loading succeeds exactly then, and prefers the cache to the keychain to the file; what the keychain
      gave is cached and copied to the file, what the file gave is cached and offered to the keychain; and
      nothing else changes. */
  lemma LoadExactly(v: Vault, pk: Pubkey, e: Env)
    ensures Load(v, pk, e).1.Ok? <==> CanLoad(v, pk, e)
    ensures Load(v, pk, e).1 == Err(KeychainFailed) <==> pk !in v.cache && e.readKey == Failure
    ensures var (v', r) := Load(v, pk, e);
            if pk in v.cache then r == Ok(v.cache[pk]) && v' == v
            else if !CanLoad(v, pk, e) then v' == v
            else if e.readKey == Hit && pk in v.keychain then
              r == Ok(v.keychain[pk]) && v' == v.(cache := v.cache[pk := r.value], files := v.files[pk := r.value])
            else
              && r == Ok(v.files[pk]) && v' == v.(cache := v.cache[pk := r.value], keychain := v'.keychain)
              && (e.writeKey == SecretStore.Installed ==> v'.keychain == v.keychain[pk := r.value])
              && (e.writeKey == SecretStore.Lost ==> v'.keychain == v.keychain - {pk})
              && (e.writeKey == SecretStore.KeptOld ==> v'.keychain == v.keychain)
  {
  }

  /** The account a command works with: the active one, else the first in the list. */
  function Chosen(v: Vault): Option<Pubkey> {
    if v.active.Some? then v.active else if Accounts(v) == [] then None else Some(Accounts(v)[0])
  }

  /** Two characters are the same up to ASCII case, said of their codes. */
  predicate SameLetter(a: char, b: char) {
    || a == b
    || ('A' <= a <= 'Z' && b as int == a as int + 32)
    || ('A' <= b <= 'Z' && a as int == b as int + 32)
  }

  lemma EqIgnoreCaseExactly(a: string, b: string)
    ensures EqIgnoreCase(a, b) <==> |a| == |b| && forall i | 0 <= i < |a| :: SameLetter(a[i], b[i])
  {
    if |a| == |b| {
      forall i | 0 <= i < |a| ensures Lower(a[i]) == Lower(b[i]) <==> SameLetter(a[i], b[i]) {
        LowerExactly(a[i], b[i]);
      }
    }
  }

  lemma LowerExactly(a: char, b: char)
    ensures Lower(a) == Lower(b) <==> SameLetter(a, b)
  {
  }

  /** Signing succeeds exactly when it should: with the key of the active account, or of the first listed one
      if none is active, if that key can be had and the event names that account letter by letter up to
      case. Every refusal is accounted for. */
  lemma SigningExactly(v: Vault, pub: Derivation, eventPubkey: Option<string>, e: Env)
    requires Consistent(v, pub)
    ensures var r := SignEvent(v, pub, eventPubkey, e).1;
            match Chosen(v)
            case None => r == Err(NoKey)
            case Some(pk) =>
              if !CanLoad(v, pk, e) then r == Err(if e.readKey == Failure then KeychainFailed else NoKey)
              else if eventPubkey.None? then r == Err(MalformedEvent)
              else
                var named := |eventPubkey.value| == |pk|
                             && forall i | 0 <= i < |pk| :: SameLetter(eventPubkey.value[i], pk[i]);
                if named then r.Ok? && pub(r.value) == pk else r == Err(PubkeyMismatch)
    ensures SignEvent(v, pub, eventPubkey, e).0.active == Chosen(v)
  {
    hide Load, EqIgnoreCase, SameLetter, Consistent, Install;
    ActiveKeyExactly(v, pub, None, e);
    if Chosen(v).Some? && eventPubkey.Some? { EqIgnoreCaseExactly(eventPubkey.value, Chosen(v).value); }
  }

  /** Which key the commands get, and when one is generated for them. */
  lemma ActiveKeyExactly(v: Vault, pub: Derivation, generated: Option<SecretKey>, e: Env)
    requires Consistent(v, pub)
    ensures var (v', r) := ActiveKey(v, pub, generated, e);
            match Chosen(v)
            case None =>
              if generated.None? then r == Err(NoKey) && v' == v
              else r == Ok(generated.value) && v' == Install(v, pub, generated.value, e)
            case Some(pk) =>
              && v'.active == Some(pk)
              && (if !CanLoad(v, pk, e) then r == Err(if e.readKey == Failure then KeychainFailed else NoKey)
                  else r.Ok? && pub(r.value) == pk)
  {
    hide Load, Install, Listed, KeysOk;
    LoadListIsAccounts(v, e.readList);
    if Chosen(v).Some? {
      var pk := Chosen(v).value;
      var chosen := v.(active := Some(pk));
      LoadExactly(chosen, pk, e);
      LoadDerives(v, pub, chosen, pk, e);
      LoadErrors(chosen, pk, e);
      assert v.active.Some? ==> chosen == v;
    }
  }

  lemma LoadDerives(v: Vault, pub: Derivation, chosen: Vault, pk: Pubkey, e: Env)
    requires KeysOk(v, pub) && chosen == v.(active := chosen.active)
    ensures Load(chosen, pk, e).1.Ok? ==> pub(Load(chosen, pk, e).1.value) == pk
    ensures Load(chosen, pk, e).0.active == chosen.active
  {
  }

  lemma LoadErrors(v: Vault, pk: Pubkey, e: Env)
    ensures Load(v, pk, e).1.Err? ==> Load(v, pk, e).1.error == if e.readKey == Failure then KeychainFailed else NoKey
  {
  }

  /** A new key is cached, active, in the file, listed last if it was not listed, and, as far as the write
      goes, in the keychain. */
  lemma GeneratedIsStored(v: Vault, pub: Derivation, sk: SecretKey, e: Env)
    requires Consistent(v, pub)
    ensures Stored(v, Execute(v, pub, Generate(sk), e), pub(sk), sk, e)
  {
    LoadListIsAccounts(v, e.readList);
  }

  ghost predicate Stored(v: Vault, v': Vault, pk: Pubkey, sk: SecretKey, e: Env) {
    && v'.cache == v.cache[pk := sk] && v'.active == Some(pk) && v'.files == v.files[pk := sk]
    && (match e.writeKey
        case Installed => v'.keychain == v.keychain[pk := sk]
        case Lost => v'.keychain == v.keychain - {pk}
        case KeptOld => v'.keychain == v.keychain)
    && (pk in Accounts(v) ==> v'.listFile == v.listFile && v'.listItem == v.listItem)
    && (pk !in Accounts(v) ==> Accounts(v') == Accounts(v) + [pk])
  }

  /** So is an imported one; a refused import leaves everything but perhaps the keychain's item. */
  lemma ImportedIsStored(v: Vault, pub: Derivation, parsed: Option<SecretKey>, e: Env)
    requires Consistent(v, pub)
    ensures var (v', r) := ImportKey(v, pub, parsed, e);
            match parsed
            case None => r == Err(InvalidKey) && v' == v
            case Some(sk) =>
              if e.reportsOk then r == Ok(sk) && Stored(v, v', pub(sk), sk, e)
              else r == Err(KeychainFailed) && v' == v.(keychain := v'.keychain)
                   && forall pk | pk != pub(sk) ::
                        (pk in v'.keychain <==> pk in v.keychain)
                        && (pk in v.keychain ==> v'.keychain[pk] == v.keychain[pk])
  {
    LoadListIsAccounts(v, e.readList);
  }

  /** A deletion, of the account named or else the active one: its key is nowhere any more, the others keep
      theirs and their order, and if it was active, the first that is left becomes active. */
  lemma DeletionExactly(v: Vault, pub: Derivation, target: Option<Pubkey>, e: Env)
    requires Consistent(v, pub) && Safe(v, pub, Delete(target), e)
    ensures var v' := DeleteKey(v, target, e);
            if target.None? && v.active.None? then v' == v.(cache := map[])
            else
              var pk := if target.Some? then target.value else v.active.value;
              && v'.keychain == v.keychain - {pk} && v'.files == v.files - {pk} && v'.cache == v.cache - {pk}
              && Accounts(v') == Without(Accounts(v), pk)
              && v'.active == (if v.active != Some(pk) then v.active
                               else if Accounts(v') == [] then None else Some(Accounts(v')[0]))
  {
    hide KeysOk, Listed, Without;
    LoadListIsAccounts(v, e.readList);
    if target.Some? || v.active.Some? {
      var pk := if target.Some? then target.value else v.active.value;
      var v' := DeleteKey(v, target, e);
      DeleteSafely(v, pub, target, e);
      LoadListIsAccounts(v', e.rereadList);
    }
  }

  /** Removing an account from a list takes out its entries and leaves the others in their order. */
  lemma {:induction false} WithoutKeepsOrder(a: seq<Pubkey>, b: seq<Pubkey>, pk: Pubkey)
    ensures Without(a + b, pk) == Without(a, pk) + Without(b, pk)
    ensures Without([pk], pk) == [] && forall x | x != pk :: Without([x], pk) == [x]
  {
    if a == [] {
      assert a + b == b;
    } else {
      WithoutKeepsOrder(a[1..], b, pk);
      assert (a + b)[0] == a[0] && (a + b)[1..] == a[1..] + b;
    }
  }

  /** Switching needs the key; clearing and restarting forget what is in memory, and only that. */
  lemma OtherCommandsExactly(v: Vault, pub: Derivation, e: Env, pk: Pubkey)
    ensures var v' := Execute(v, pub, Switch(pk), e);
            v' == if CanLoad(v, pk, e) then Load(v, pk, e).0.(active := Some(pk)) else v
    ensures Execute(v, pub, ClearActive, e) == v.(active := None)
    ensures Execute(v, pub, Restart, e) == v.(active := None, cache := map[])
  {
    hide Load;
    LoadExactly(v, pk, e);
  }

  /** The list in the keychain comes before the one in the file. */
  lemma ListPreference(v: Vault, readable: bool)
    ensures readable && v.listItem.Some? ==> LoadList(v, readable) == v.listItem.value
    ensures !(readable && v.listItem.Some?) ==> LoadList(v, readable) == Accounts(v)
  {
  }

  // ---------------------------------------------------------------- the program

  class Store {
    const pub: Derivation
    var keychain: map<Pubkey, SecretKey>
    var files: map<Pubkey, SecretKey>
    var listItem: Option<seq<Pubkey>>
    var listFile: Option<seq<Pubkey>>
    var cachedSecrets: map<Pubkey, SecretKey>
    var activePubkey: Option<Pubkey>

    constructor (pub: Derivation)
      ensures View() == EMPTY && this.pub == pub
    {
      this.pub := pub;
      keychain, files, listItem, listFile, cachedSecrets, activePubkey := map[], map[], None, None, map[], None;
    }

    ghost function View(): Vault
      reads this
    {
      Vault(keychain, files, listItem, listFile, cachedSecrets, activePubkey)
    }

    method LoadAccountList(readable: bool) returns (list: seq<Pubkey>)
      ensures list == LoadList(View(), readable)
    {
      if readable && listItem.Some? { return listItem.value; }
      if listFile.Some? { return listFile.value; }
      return [];
    }

    method SaveAccountList(list: seq<Pubkey>, fate: SecretStore.Fate)
      modifies this`listItem, this`listFile
      ensures View() == SaveList(old(View()), list, fate)
    {
      match fate {
        case Installed => listItem := Some(list);
        case Lost => listItem := None;
        case KeptOld =>
      }
      listFile := Some(list);
    }

    method AddToAccountList(pk: Pubkey, e: Env)
      modifies this`listItem, this`listFile
      ensures View() == AddToList(old(View()), pk, e)
    {
      var list := LoadAccountList(e.readList);
      if pk !in list { SaveAccountList(list + [pk], e.writeList); }
    }

    method RemoveFromAccountList(pk: Pubkey, e: Env)
      modifies this`listItem, this`listFile
      ensures View() == SaveList(old(View()), Without(LoadList(old(View()), e.readList), pk), e.writeList)
    {
      var list := LoadAccountList(e.readList);
      var kept: seq<Pubkey> := [];
      for i := 0 to |list|
        invariant kept + Without(list[i..], pk) == Without(list, pk)
        invariant unchanged(this)
      {
        assert list[i..][0] == list[i] && list[i..][1..] == list[i + 1..];
        if list[i] != pk { kept := kept + [list[i]]; }
      }
      assert list[|list|..] == [] && kept + [] == kept && list[0..] == list;
      SaveAccountList(kept, e.writeList);
    }

    method WriteKey(pk: Pubkey, sk: SecretKey, fate: SecretStore.Fate)
      modifies this`keychain
      ensures View() == StoreKey(old(View()), pk, sk, fate)
    {
      match fate
      case Installed => keychain := keychain[pk := sk];
      case Lost => keychain := keychain - {pk};
      case KeptOld =>
    }

    method LoadAccountKey(pk: Pubkey, e: Env) returns (r: Result<SecretKey, Error>)
      modifies this
      ensures (View(), r) == Load(old(View()), pk, e)
    {
      if pk in cachedSecrets { return Ok(cachedSecrets[pk]); }
      if e.readKey == Failure { return Err(KeychainFailed); }
      if e.readKey == Hit && pk in keychain {
        var sk := keychain[pk];
        cachedSecrets := cachedSecrets[pk := sk];
        files := files[pk := sk];
        return Ok(sk);
      }
      if pk in files {
        var sk := files[pk];
        cachedSecrets := cachedSecrets[pk := sk];
        WriteKey(pk, sk, e.writeKey);
        return Ok(sk);
      }
      return Err(NoKey);
    }

    method GenerateKey(sk: SecretKey, e: Env) returns (pk: Pubkey)
      modifies this
      ensures View() == Execute(old(View()), pub, Generate(sk), e) && pk == pub(sk)
    {
      pk := pub(sk);
      cachedSecrets := cachedSecrets[pk := sk];
      activePubkey := Some(pk);
      WriteKey(pk, sk, e.writeKey);
      files := files[pk := sk];
      AddToAccountList(pk, e);
    }

    method GetActiveSecretKey(generated: Option<SecretKey>, e: Env) returns (r: Result<SecretKey, Error>)
      modifies this
      ensures (View(), r) == ActiveKey(old(View()), pub, generated, e)
    {
      if activePubkey.Some? {
        r := LoadAccountKey(activePubkey.value, e);
        return;
      }
      var accounts := LoadAccountList(e.readList);
      if |accounts| > 0 {
        activePubkey := Some(accounts[0]);
        r := LoadAccountKey(accounts[0], e);
        return;
      }
      if generated.None? { return Err(NoKey); }
      var _ := GenerateKey(generated.value, e);
      return Ok(generated.value);
    }

    method ImportSecret(parsed: Option<SecretKey>, e: Env) returns (r: Result<Pubkey, Error>)
      modifies this
      ensures View() == Execute(old(View()), pub, Import(parsed), e)
      ensures r == match ImportKey(old(View()), pub, parsed, e).1 case Ok(sk) => Ok(pub(sk)) case Err(x) => Err(x)
    {
      if parsed.None? { return Err(InvalidKey); }
      var sk := parsed.value;
      var pk := pub(sk);
      WriteKey(pk, sk, e.writeKey);
      if !e.reportsOk { return Err(KeychainFailed); }
      files := files[pk := sk];
      cachedSecrets := cachedSecrets[pk := sk];
      activePubkey := Some(pk);
      AddToAccountList(pk, e);
      return Ok(pk);
    }

    method DeleteAccount(target: Option<Pubkey>, e: Env)
      modifies this
      ensures View() == Execute(old(View()), pub, Delete(target), e)
    {
      if target.None? && activePubkey.None? {
        cachedSecrets := map[];
        return;
      }
      var pk := if target.Some? then target.value else activePubkey.value;
      keychain := keychain - {pk};
      files := files - {pk};
      RemoveFromAccountList(pk, e);
      cachedSecrets := cachedSecrets - {pk};
      if activePubkey == Some(pk) {
        var accounts := LoadAccountList(e.rereadList);
        activePubkey := if |accounts| == 0 then None else Some(accounts[0]);
      }
    }

    method SwitchAccount(pk: Pubkey, e: Env) returns (ok: bool)
      modifies this
      ensures View() == Execute(old(View()), pub, Switch(pk), e)
      ensures ok == Load(old(View()), pk, e).1.Ok?
    {
      var r := LoadAccountKey(pk, e);
      if r.Ok? { activePubkey := Some(pk); }
      return r.Ok?;
    }

    method SignWithActive(eventPubkey: Option<string>, e: Env) returns (r: Result<SecretKey, Error>)
      modifies this
      ensures (View(), r) == SignEvent(old(View()), pub, eventPubkey, e)
    {
      r := GetActiveSecretKey(None, e);
      if r.Err? { return; }
      if eventPubkey.None? { return Err(MalformedEvent); }
      if !EqIgnoreCase(eventPubkey.value, pub(r.value)) { return Err(PubkeyMismatch); }
    }

    method ClearActiveAccount()
      modifies this`activePubkey
      ensures View() == old(View()).(active := None)
    {
      activePubkey := None;
    }
  }
}
