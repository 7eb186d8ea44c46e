/** Keys and role tokens kept as secrets, and the healer that recreates missing ones
    (src/workflow/keys-jwt.go). */
module KeyHealer {
  import opened Text

  /** What a secret may hold. A token is its signing key and its subject; signing is that pairing. */
  datatype Blob = PrivateKey(id: nat) | PublicKey(id: nat) | Token(key: nat, role: string) | Opaque(bytes: seq<int>)

  type Secret = map<string, Blob>
  type Store = map<string, Secret>

  const TOKEN_PRIVATE_KEY := "token-private-key"
  const TOKEN_PUBLIC_KEY := "token-public-key"
  const JWT_FILE_EXTENSION := ".jwt"
  const DEFAULT_ROLES := ["admin", "proxy", "superuser", "websocket"]

  datatype Status = Created | InProgress | Succeeded | Failed

  datatype Config = Config(privateKeyFile: string, publicKeyFile: string, superRoles: string)

  // ---- Roles ----

  predicate IsSpace(c: char) {
    '\t' <= c <= '\r' || c == ' ' || c == '\U{85}' || c == '\U{A0}' || c == '\U{1680}' ||
    '\U{2000}' <= c <= '\U{200A}' || c == '\U{2028}' || c == '\U{2029}' || c == '\U{202F}' ||
    c == '\U{205F}' || c == '\U{3000}'
  }

  function TrimSpace(s: string): string
    decreases |s|
  {
    if s != "" && IsSpace(s[0]) then TrimSpace(s[1..])
    else if s != "" && IsSpace(s[|s| - 1]) then TrimSpace(s[..|s| - 1])
    else s
  }

  function TrimAll(parts: seq<string>): (roles: seq<string>)
    ensures |roles| == |parts|
  {
    seq(|parts|, i requires 0 <= i < |parts| => TrimSpace(parts[i]))
  }

  function AdminRoles(cfg: Config): seq<string> {
    if cfg.superRoles == "" then DEFAULT_ROLES else TrimAll(Split(cfg.superRoles, ','))
  }

  /** The roles as the loops use them, trimmed once more. */
  function Roles(cfg: Config): seq<string> {
    TrimAll(AdminRoles(cfg))
  }

  function SecretName(role: string): string {
    "token-" + role
  }

  function TokenSecret(key: nat, role: string): Secret {
    map[role + JWT_FILE_EXTENSION := Token(key, role)]
  }

  /** The characters of Unicode's White_Space property. */
  predicate WhiteSpace(c: char) {
    var code := c as int;
    || 9 <= code <= 13 || code == 32 || code == 133 || code == 160 || code == 5760 || 8192 <= code <= 8202
    || code == 8232 || code == 8233 || code == 8239 || code == 8287 || code == 12288
  }

  lemma IsSpaceIff(c: char)
    ensures IsSpace(c) <==> WhiteSpace(c)
  {
  }

  /** `t` is `s` without the white space around it. */
  ghost predicate TrimmedTo(s: string, t: string, before: nat) {
    && before + |t| <= |s| && t == s[before..before + |t|]
    && (forall i :: 0 <= i < before ==> WhiteSpace(s[i])) && (forall i :: before + |t| <= i < |s| ==> WhiteSpace(s[i]))
    && (t != "" ==> !WhiteSpace(t[0]) && !WhiteSpace(t[|t| - 1]))
  }

  lemma TrimmedFront(s: string, t: string, before: nat)
    requires s != "" && WhiteSpace(s[0]) && TrimmedTo(s[1..], t, before)
    ensures TrimmedTo(s, t, before + 1)
  {
    forall i | 0 <= i < before + 1
      ensures WhiteSpace(s[i])
    {
      assert i > 0 ==> s[i] == s[1..][i - 1];
    }
    forall i | before + 1 + |t| <= i < |s|
      ensures WhiteSpace(s[i])
    {
      assert s[i] == s[1..][i - 1];
    }
  }

  lemma TrimmedBack(s: string, t: string, before: nat)
    requires s != "" && WhiteSpace(s[|s| - 1]) && TrimmedTo(s[..|s| - 1], t, before)
    ensures TrimmedTo(s, t, before)
  {
    forall i | before + |t| <= i < |s|
      ensures WhiteSpace(s[i])
    {
      assert i < |s| - 1 ==> s[i] == s[..|s| - 1][i];
    }
  }

  lemma {:induction false} TrimSpaceTrims(s: string) returns (before: nat)
    ensures TrimmedTo(s, TrimSpace(s), before)
    decreases |s|
  {
    before := 0;
    if s != "" {
      IsSpaceIff(s[0]);
      IsSpaceIff(s[|s| - 1]);
      if IsSpace(s[0]) {
        var b := TrimSpaceTrims(s[1..]);
        TrimmedFront(s, TrimSpace(s), b);
        before := b + 1;
      } else if IsSpace(s[|s| - 1]) {
        before := TrimSpaceTrims(s[..|s| - 1]);
        TrimmedBack(s, TrimSpace(s), before);
      }
    }
  }

  lemma TrimOnce(s: string)
    ensures TrimSpace(TrimSpace(s)) == TrimSpace(s)
  {
    var before := TrimSpaceTrims(s);
  }

  /** The roles are the comma parts of the configured ones, each without the blanks around it, or else the
      four default ones. */
  lemma RolesAre(cfg: Config, i: nat) returns (before: nat)
    requires cfg.superRoles != "" && i < |Split(cfg.superRoles, ',')|
    ensures |Roles(cfg)| == |Split(cfg.superRoles, ',')|
    ensures TrimmedTo(Split(cfg.superRoles, ',')[i], Roles(cfg)[i], before)
  {
    var part := Split(cfg.superRoles, ',')[i];
    TrimOnce(part);
    before := TrimSpaceTrims(part);
  }

  // ---- What the operations do to the store ----

  /** Creating a secret fails, and changes nothing, when the name is taken. */
  function Creation(store: Store, name: string, data: Secret): Store {
    if name in store then store else store[name := data]
  }

  function KeyFromSecret(store: Store, name: string, file: string): Option<Blob> {
    if name in store && file in store[name] then Some(store[name][file]) else None
  }

  function AddTokens(store: Store, key: nat, roles: seq<string>): Store {
    if roles == [] then store
    else
      var role := roles[|roles| - 1];
      Creation(AddTokens(store, key, roles[..|roles| - 1]), SecretName(role), TokenSecret(key, role))
  }

  /** Both keys under their names, then a token for every role, signed by the private one. */
  function Exported(store: Store, cfg: Config, privateKey: nat, publicKey: nat): Store {
    var s1 := Creation(store, TOKEN_PRIVATE_KEY, map[cfg.privateKeyFile := PrivateKey(privateKey)]);
    var s2 := Creation(s1, TOKEN_PUBLIC_KEY, map[cfg.publicKeyFile := PublicKey(publicKey)]);
    AddTokens(s2, privateKey, Roles(cfg))
  }

  function AfterCreate(store: Store, cfg: Config, newKey: nat): Store {
    Exported(store, cfg, newKey, newKey)
  }

  function PrivateKeyIn(store: Store, cfg: Config): Option<Blob> {
    KeyFromSecret(store, TOKEN_PRIVATE_KEY, cfg.privateKeyFile)
  }

  function PublicKeyIn(store: Store, cfg: Config): Option<Blob> {
    KeyFromSecret(store, TOKEN_PUBLIC_KEY, cfg.publicKeyFile)
  }

  /** A run that cannot read a key secret, whether it is there or not. */
  predicate Blind(failing: set<string>) {
    TOKEN_PRIVATE_KEY in failing || TOKEN_PUBLIC_KEY in failing
  }

  /** One run of the healer; `newKey` is the pair it would generate, `failing` the secrets whose reads
      fail although they may be there. False when the stored keys do not parse. */
  function AfterHeal(store: Store, cfg: Config, newKey: nat, failing: set<string>): (Store, bool) {
    var private, public := PrivateKeyIn(store, cfg), PublicKeyIn(store, cfg);
    if Blind(failing) || private.None? || public.None? then (AfterCreate(store, cfg, newKey), true)
    else if !private.value.PrivateKey? || !public.value.PublicKey? then (store, false)
    else (AddTokens(store, private.value.id, Roles(cfg)), true)
  }

  // ---- The program ----

  class SecretStore {
    var secrets: Store

    constructor ()
      ensures secrets == map[]
    {
      secrets := map[];
    }

    method CreateSecret(name: string, data: Secret) returns (ok: bool)
      modifies this
      ensures ok <==> name !in old(secrets)
      ensures secrets == Creation(old(secrets), name, data)
    {
      ok := name !in secrets;
      if ok {
        secrets := secrets[name := data];
      }
    }

    method GetSecret(name: string, failing: set<string>) returns (data: Option<Secret>)
      ensures data == if name in secrets && name !in failing then Some(secrets[name]) else None
    {
      data := if name in secrets && name !in failing then Some(secrets[name]) else None;
    }

    /** getKeyFromSecret. */
    method GetKey(name: string, file: string, failing: set<string>) returns (key: Option<Blob>)
      ensures key == if name in failing then None else KeyFromSecret(secrets, name, file)
    {
      var data := GetSecret(name, failing);
      if data.None? || file !in data.value {
        return None;
      }
      return Some(data.value[file]);
    }
  }

  /** The tokens held after one for each role has been filed. */
  function Filed(jwts: map<string, Blob>, key: nat, roles: seq<string>): map<string, Blob> {
    if roles == [] then jwts
    else Filed(jwts, key, roles[..|roles| - 1])[roles[|roles| - 1] := Token(key, roles[|roles| - 1])]
  }

  lemma TokensNext(store: Store, jwts: map<string, Blob>, key: nat, roles: seq<string>, i: nat)
    requires i < |roles|
    ensures Filed(jwts, key, roles[..i + 1]) == Filed(jwts, key, roles[..i])[roles[i] := Token(key, roles[i])]
    ensures AddTokens(store, key, roles[..i + 1]) ==
            Creation(AddTokens(store, key, roles[..i]), SecretName(roles[i]), TokenSecret(key, roles[i]))
  {
    assert roles[..i + 1][..i] == roles[..i];
  }

  class KeysJWTs {
    const privateKey: nat
    const publicKey: nat
    var pulsarJWTs: map<string, Blob>

    constructor (privateKey: nat, publicKey: nat)
      ensures this.privateKey == privateKey && this.publicKey == publicKey && pulsarJWTs == map[]
    {
      this.privateKey := privateKey;
      this.publicKey := publicKey;
      pulsarJWTs := map[];
    }

    method Create(store: SecretStore, cfg: Config)
      modifies this, store
      ensures store.secrets == Exported(old(store.secrets), cfg, privateKey, publicKey)
      ensures pulsarJWTs == Filed(old(pulsarJWTs), privateKey, Roles(cfg))
    {
      var _ := store.CreateSecret(TOKEN_PRIVATE_KEY, map[cfg.privateKeyFile := PrivateKey(privateKey)]);
      var _ := store.CreateSecret(TOKEN_PUBLIC_KEY, map[cfg.publicKeyFile := PublicKey(publicKey)]);
      ghost var before := store.secrets;
      var roles := Roles(cfg);
      for i := 0 to |roles|
        invariant store.secrets == AddTokens(before, privateKey, roles[..i])
        invariant pulsarJWTs == Filed(old(pulsarJWTs), privateKey, roles[..i])
      {
        var role := roles[i];
        TokensNext(before, old(pulsarJWTs), privateKey, roles, i);
        pulsarJWTs := pulsarJWTs[role := Token(privateKey, role)];
        var _ := store.CreateSecret(SecretName(role), map[role + JWT_FILE_EXTENSION := Token(privateKey, role)]);
      }
      assert roles[..|roles|] == roles;
    }

    /** A role token that is there but cannot be read is created in vain. */
    method Repair(store: SecretStore, cfg: Config, failing: set<string>)
      modifies this, store
      ensures store.secrets == AddTokens(old(store.secrets), privateKey, Roles(cfg))
      ensures pulsarJWTs == Filed(old(pulsarJWTs), privateKey, Roles(cfg))
    {
      var roles := Roles(cfg);
      for i := 0 to |roles|
        invariant store.secrets == AddTokens(old(store.secrets), privateKey, roles[..i])
        invariant pulsarJWTs == Filed(old(pulsarJWTs), privateKey, roles[..i])
      {
        var role := roles[i];
        TokensNext(old(store.secrets), old(pulsarJWTs), privateKey, roles, i);
        pulsarJWTs := pulsarJWTs[role := Token(privateKey, role)];
        var existing := store.GetSecret(SecretName(role), failing);
        if existing.None? {
          var _ := store.CreateSecret(SecretName(role), map[role + JWT_FILE_EXTENSION := Token(privateKey, role)]);
        }
      }
      assert roles[..|roles|] == roles;
    }
  }

  class Cluster {
    const store: SecretStore
    const cfg: Config
    var status: Status

    constructor (store: SecretStore, cfg: Config)
      ensures this.store == store && this.cfg == cfg && status == Created
    {
      this.store := store;
      this.cfg := cfg;
      status := Created;
    }

    method Create(newKey: nat)
      modifies this, store
      ensures store.secrets == AfterCreate(old(store.secrets), cfg, newKey) && status == Succeeded
    {
      var keysAndJWTs := new KeysJWTs(newKey, newKey);
      keysAndJWTs.Create(store, cfg);
      status := Succeeded;
    }

    method Healer(newKey: nat, failing: set<string>) returns (ok: bool)
      modifies this, store
      ensures (store.secrets, ok) == AfterHeal(old(store.secrets), cfg, newKey, failing)
      ensures status == if ok then Succeeded else old(status)
    {
      var private := store.GetKey(TOKEN_PRIVATE_KEY, cfg.privateKeyFile, failing);
      if private.None? {
        Create(newKey);
        return true;
      }
      var public := store.GetKey(TOKEN_PUBLIC_KEY, cfg.publicKeyFile, failing);
      if public.None? {
        Create(newKey);
        return true;
      }
      if !private.value.PrivateKey? || !public.value.PublicKey? {
        return false;
      }
      var keysAndJWTs := new KeysJWTs(private.value.id, public.value.id);
      keysAndJWTs.Repair(store, cfg, failing);
      status := Succeeded;
      return true;
    }
  }

  // ---- What a run adds ----

  /** Every secret of `before` is in `after`, untouched. */
  ghost predicate Extends(before: Store, after: Store) {
    forall name :: name in before ==> name in after && after[name] == before[name]
  }

  lemma {:induction false} AddTokensEffect(store: Store, key: nat, roles: seq<string>)
    ensures var after := AddTokens(store, key, roles);
            && Extends(store, after)
            && (forall role :: role in roles ==> SecretName(role) in after)
            && (forall name :: name in after && name !in store ==>
                  exists role :: role in roles && name == SecretName(role) && after[name] == TokenSecret(key, role))
  {
    if roles != [] {
      AddTokensEffect(store, key, roles[..|roles| - 1]);
      assert roles == roles[..|roles| - 1] + [roles[|roles| - 1]];
    }
  }

  lemma {:induction false} AddTokensPresent(store: Store, key: nat, roles: seq<string>)
    requires forall role :: role in roles ==> SecretName(role) in store
    ensures AddTokens(store, key, roles) == store
  {
    if roles != [] {
      assert roles == roles[..|roles| - 1] + [roles[|roles| - 1]];
      AddTokensPresent(store, key, roles[..|roles| - 1]);
    }
  }

  /** Whatever the store holds, a run overwrites nothing. */
  lemma HealOverwritesNothing(store: Store, cfg: Config, newKey: nat, failing: set<string>)
    ensures Extends(store, AfterHeal(store, cfg, newKey, failing).0)
  {
    var s1 := Creation(store, TOKEN_PRIVATE_KEY, map[cfg.privateKeyFile := PrivateKey(newKey)]);
    var s2 := Creation(s1, TOKEN_PUBLIC_KEY, map[cfg.publicKeyFile := PublicKey(newKey)]);
    AddTokensEffect(s2, newKey, Roles(cfg));
    var private := PrivateKeyIn(store, cfg);
    if private.Some? && private.value.PrivateKey? {
      AddTokensEffect(store, private.value.id, Roles(cfg));
    }
  }

  // ---- Whole runs ----

  /** No role token shares the name of a key secret. */
  ghost predicate RolesApart(cfg: Config) {
    forall role :: role in Roles(cfg) ==> role != "private-key" && role != "public-key"
  }

  lemma SecretNameInjective(a: string, b: string)
    requires SecretName(a) == SecretName(b)
    ensures a == b
  {
    assert SecretName(a)[6..] == a && SecretName(b)[6..] == b;
  }

  lemma KeysApart(cfg: Config, role: string)
    requires RolesApart(cfg) && role in Roles(cfg)
    ensures SecretName(role) != TOKEN_PRIVATE_KEY && SecretName(role) != TOKEN_PUBLIC_KEY
  {
    assert TOKEN_PRIVATE_KEY == SecretName("private-key") && TOKEN_PUBLIC_KEY == SecretName("public-key");
    if SecretName(role) == SecretName("private-key") {
      SecretNameInjective(role, "private-key");
    }
    if SecretName(role) == SecretName("public-key") {
      SecretNameInjective(role, "public-key");
    }
  }

  ghost predicate Blank(store: Store, cfg: Config) {
    && TOKEN_PRIVATE_KEY !in store && TOKEN_PUBLIC_KEY !in store
    && forall role :: role in Roles(cfg) ==> SecretName(role) !in store
  }

  /** One matching key pair, and every role token present signed by it. */
  ghost predicate Healthy(store: Store, cfg: Config, key: nat) {
    && PrivateKeyIn(store, cfg) == Some(PrivateKey(key))
    && PublicKeyIn(store, cfg) == Some(PublicKey(key))
    && forall role :: role in Roles(cfg) && SecretName(role) in store ==> store[SecretName(role)] == TokenSecret(key, role)
  }

  ghost predicate Complete(store: Store, cfg: Config) {
    forall role :: role in Roles(cfg) ==> SecretName(role) in store
  }

  lemma AddTokensHealthy(store: Store, cfg: Config, key: nat)
    requires RolesApart(cfg) && Healthy(store, cfg, key)
    ensures var after := AddTokens(store, key, Roles(cfg));
            Healthy(after, cfg, key) && Complete(after, cfg)
  {
    var after := AddTokens(store, key, Roles(cfg));
    AddTokensEffect(store, key, Roles(cfg));
    forall role | role in Roles(cfg)
      ensures after[SecretName(role)] == TokenSecret(key, role)
    {
      if SecretName(role) !in store {
        var other :| other in Roles(cfg) && SecretName(role) == SecretName(other) &&
          after[SecretName(role)] == TokenSecret(key, other);
        SecretNameInjective(role, other);
      }
    }
  }

  /** From a blank store a run creates the pair and every token. */
  lemma HealBlank(store: Store, cfg: Config, newKey: nat, failing: set<string>)
    requires RolesApart(cfg) && Blank(store, cfg)
    ensures var (after, ok) := AfterHeal(store, cfg, newKey, failing);
            ok && Healthy(after, cfg, newKey) && Complete(after, cfg)
  {
    var s1 := Creation(store, TOKEN_PRIVATE_KEY, map[cfg.privateKeyFile := PrivateKey(newKey)]);
    var s2 := Creation(s1, TOKEN_PUBLIC_KEY, map[cfg.publicKeyFile := PublicKey(newKey)]);
    forall role | role in Roles(cfg)
      ensures SecretName(role) !in s2
    {
      KeysApart(cfg, role);
    }
    AddTokensHealthy(s2, cfg, newKey);
  }

  lemma CompleteStays(store: Store, cfg: Config, newKey: nat)
    requires TOKEN_PRIVATE_KEY in store && TOKEN_PUBLIC_KEY in store && Complete(store, cfg)
    ensures AfterCreate(store, cfg, newKey) == store
  {
    AddTokensPresent(store, newKey, Roles(cfg));
  }

  /** From a healthy store a run that reads the keys restores the missing tokens with the same key, and
      a second run, whatever it can read, changes nothing. */
  lemma HealHealthy(store: Store, cfg: Config, key: nat, newKey: nat, failing: set<string>,
                    nextKey: nat, nextFailing: set<string>)
    requires RolesApart(cfg) && Healthy(store, cfg, key) && !Blind(failing)
    ensures var (after, ok) := AfterHeal(store, cfg, newKey, failing);
            && ok && Healthy(after, cfg, key) && Complete(after, cfg)
            && AfterHeal(after, cfg, nextKey, nextFailing) == (after, true)
  {
    AddTokensHealthy(store, cfg, key);
    var after := AddTokens(store, key, Roles(cfg));
    AddTokensPresent(after, key, Roles(cfg));
    CompleteStays(after, cfg, nextKey);
  }

  /** A run that cannot read a key secret completes the tokens too, but signs the missing ones with the
      pair it generated and then failed to store: the store stays healthy exactly when none was
      missing. */
  lemma BlindHealIff(store: Store, cfg: Config, key: nat, newKey: nat, failing: set<string>)
    requires RolesApart(cfg) && Healthy(store, cfg, key) && Blind(failing) && newKey != key
    ensures var (after, ok) := AfterHeal(store, cfg, newKey, failing);
            ok && Complete(after, cfg) && (Healthy(after, cfg, key) <==> Complete(store, cfg))
  {
    var after := AddTokens(store, newKey, Roles(cfg));
    AddTokensEffect(store, newKey, Roles(cfg));
    assert AfterCreate(store, cfg, newKey) == after;
    if Complete(store, cfg) {
      CompleteStays(store, cfg, newKey);
    } else {
      var role :| role in Roles(cfg) && SecretName(role) !in store;
      var other :| other in Roles(cfg) && SecretName(role) == SecretName(other) &&
        after[SecretName(role)] == TokenSecret(newKey, other);
      SecretNameInjective(role, other);
      TokenSigner(newKey, key, role);
    }
  }

  lemma TokenSigner(a: nat, b: nat, role: string)
    requires a != b
    ensures TokenSecret(a, role) != TokenSecret(b, role)
  {
    assert TokenSecret(a, role)[role + JWT_FILE_EXTENSION] != TokenSecret(b, role)[role + JWT_FILE_EXTENSION];
  }

  /** A run fails, and changes nothing, exactly when both keys can be read and one of them does not
      parse. */
  lemma HealFailsIff(store: Store, cfg: Config, newKey: nat, failing: set<string>)
    ensures var (after, ok) := AfterHeal(store, cfg, newKey, failing);
            var private, public := PrivateKeyIn(store, cfg), PublicKeyIn(store, cfg);
            && (!ok <==> !Blind(failing) && private.Some? && public.Some? &&
                         !(private.value.PrivateKey? && public.value.PublicKey?))
            && (!ok ==> after == store)
  {
  }

  /** What a run leaves in a blank store, by the names of secrets and files: the two keys, and for each
      role a token of its own, signed by the private key; of the store before, everything else. */
  lemma SecretsByName(store: Store, cfg: Config, newKey: nat, failing: set<string>, role: string)
    requires RolesApart(cfg) && Blank(store, cfg) && role in Roles(cfg)
    ensures var after := AfterHeal(store, cfg, newKey, failing).0;
            && "token-private-key" in after && after["token-private-key"] == map[cfg.privateKeyFile := PrivateKey(newKey)]
            && "token-public-key" in after && after["token-public-key"] == map[cfg.publicKeyFile := PublicKey(newKey)]
            && "token-" + role in after && after["token-" + role] == map[role + ".jwt" := Token(newKey, role)]
  {
    var s1 := Creation(store, TOKEN_PRIVATE_KEY, map[cfg.privateKeyFile := PrivateKey(newKey)]);
    var s2 := Creation(s1, TOKEN_PUBLIC_KEY, map[cfg.publicKeyFile := PublicKey(newKey)]);
    HealBlank(store, cfg, newKey, failing);
    AddTokensEffect(s2, newKey, Roles(cfg));
    assert TOKEN_PRIVATE_KEY != TOKEN_PUBLIC_KEY;
  }

  lemma HealCompletes(store: Store, cfg: Config, newKey: nat, failing: set<string>)
    requires AfterHeal(store, cfg, newKey, failing).1
    ensures Complete(AfterHeal(store, cfg, newKey, failing).0, cfg)
  {
    var private, public := PrivateKeyIn(store, cfg), PublicKeyIn(store, cfg);
    if Blind(failing) || private.None? || public.None? {
      var s1 := Creation(store, TOKEN_PRIVATE_KEY, map[cfg.privateKeyFile := PrivateKey(newKey)]);
      var s2 := Creation(s1, TOKEN_PUBLIC_KEY, map[cfg.publicKeyFile := PublicKey(newKey)]);
      AddTokensEffect(s2, newKey, Roles(cfg));
    } else {
      AddTokensEffect(store, private.value.id, Roles(cfg));
    }
  }

  /** Each comma part of the configured roles, without the blanks around it, has its token after every
      run of the healer that does not fail. */
  lemma PartsHaveTokens(store: Store, cfg: Config, newKey: nat, failing: set<string>, i: nat)
    returns (role: string, before: nat)
    requires cfg.superRoles != "" && i < |Split(cfg.superRoles, ',')| && AfterHeal(store, cfg, newKey, failing).1
    ensures TrimmedTo(Split(cfg.superRoles, ',')[i], role, before)
    ensures "token-" + role in AfterHeal(store, cfg, newKey, failing).0
  {
    before := RolesAre(cfg, i);
    role := Roles(cfg)[i];
    HealCompletes(store, cfg, newKey, failing);
    assert SecretName(role) in AfterHeal(store, cfg, newKey, failing).0;
  }

  /** The tokens kept in memory: one for each role, signed by the key at hand, beside those there were. */
  lemma {:induction false} FiledAre(jwts: map<string, Blob>, key: nat, roles: seq<string>)
    ensures var filed := Filed(jwts, key, roles);
            && (forall role :: role in filed <==> role in jwts || role in roles)
            && (forall role :: role in filed ==> filed[role] == if role in roles then Token(key, role) else jwts[role])
  {
    if roles != [] {
      FiledAre(jwts, key, roles[..|roles| - 1]);
      assert roles == roles[..|roles| - 1] + [roles[|roles| - 1]];
    }
  }

  /** Heal: a run of the healer. Lose: somebody deletes a role's token secret. */
  datatype Event = Heal(newKey: nat, failing: set<string>) | Lose(role: string)

  function Apply(store: Store, cfg: Config, e: Event): Store {
    match e
    case Heal(newKey, failing) => AfterHeal(store, cfg, newKey, failing).0
    case Lose(role) => if role in Roles(cfg) then store - {SecretName(role)} else store
  }

  function Run(store: Store, cfg: Config, events: seq<Event>): Store {
    if events == [] then store else Apply(Run(store, cfg, events[..|events| - 1]), cfg, events[|events| - 1])
  }

  /** The pair generated by the first run. */
  function FirstKey(events: seq<Event>): Option<nat> {
    if events == [] then None
    else
      var before := FirstKey(events[..|events| - 1]);
      if before.None? && events[|events| - 1].Heal? then Some(events[|events| - 1].newKey) else before
  }

  /** A role token was lost after the last run. */
  predicate LostSince(cfg: Config, events: seq<Event>) {
    if events == [] then false
    else
      match events[|events| - 1]
      case Heal(_, _) => false
      case Lose(role) => role in Roles(cfg) || LostSince(cfg, events[..|events| - 1])
  }

  /** No run later than the first meets a lost token while it cannot read a key secret. */
  predicate Unspoiled(cfg: Config, events: seq<Event>) {
    if events == [] then true
    else
      var front, last := events[..|events| - 1], events[|events| - 1];
      Unspoiled(cfg, front) &&
      !(last.Heal? && Blind(last.failing) && FirstKey(front).Some? && LostSince(cfg, front))
  }

  /** Every run after the first would generate a pair other than the first. */
  predicate FreshKeys(events: seq<Event>) {
    if events == [] then true
    else
      var front, last := events[..|events| - 1], events[|events| - 1];
      FreshKeys(front) && (last.Heal? && FirstKey(front).Some? ==> last.newKey != FirstKey(front).value)
  }

  /** Nothing is there before the first run; from then on the store is healthy, complete unless a token
      was lost after the last run. */
  ghost predicate Kept(store: Store, cfg: Config, events: seq<Event>) {
    var after := Run(store, cfg, events);
    match FirstKey(events)
    case None => Blank(after, cfg)
    case Some(key) => Healthy(after, cfg, key) && (Complete(after, cfg) <==> !LostSince(cfg, events))
  }

  lemma LoseKeeps(store: Store, cfg: Config, role: string)
    requires RolesApart(cfg)
    ensures var after := Apply(store, cfg, Lose(role));
            && (Blank(store, cfg) ==> Blank(after, cfg))
            && (forall key :: Healthy(store, cfg, key) ==> Healthy(after, cfg, key))
            && (Complete(after, cfg) <==> Complete(store, cfg) && role !in Roles(cfg))
  {
  }

  lemma KeptNext(store: Store, cfg: Config, events: seq<Event>)
    requires RolesApart(cfg) && events != [] && Kept(store, cfg, events[..|events| - 1])
    requires Unspoiled(cfg, events)
    ensures Kept(store, cfg, events)
  {
    var front, last := events[..|events| - 1], events[|events| - 1];
    var before := Run(store, cfg, front);
    match last
    case Lose(role) => LoseKeeps(before, cfg, role);
    case Heal(newKey, failing) =>
      match FirstKey(front)
      case None => HealBlank(before, cfg, newKey, failing);
      case Some(key) =>
        if Blind(failing) {
          CompleteStays(before, cfg, newKey);
        } else {
          HealHealthy(before, cfg, key, newKey, failing, newKey, failing);
        }
  }

  /** Over every sequence of healer runs and lost role tokens that is unspoiled, the store keeps the one
      pair of the first run with every token signed by it, and is complete after each run. */
  lemma {:induction false} HealingRuns(store: Store, cfg: Config, events: seq<Event>)
    requires RolesApart(cfg) && Blank(store, cfg) && Unspoiled(cfg, events)
    ensures Kept(store, cfg, events)
  {
    if events != [] {
      HealingRuns(store, cfg, events[..|events| - 1]);
      KeptNext(store, cfg, events);
    }
  }

  /** After every event every token present is signed by the pair of the first run, which is stored. */
  ghost predicate StaysSigned(store: Store, cfg: Config, events: seq<Event>) {
    if events == [] then true
    else
      StaysSigned(store, cfg, events[..|events| - 1]) &&
      (FirstKey(events).Some? ==> Healthy(Run(store, cfg, events), cfg, FirstKey(events).value))
  }

  /** With fresh keys that is the exact condition for every token to stay signed by the stored pair. */
  lemma {:induction false} StaysSignedIff(store: Store, cfg: Config, events: seq<Event>)
    requires RolesApart(cfg) && Blank(store, cfg) && FreshKeys(events)
    ensures StaysSigned(store, cfg, events) <==> Unspoiled(cfg, events)
  {
    if events != [] {
      var front, last := events[..|events| - 1], events[|events| - 1];
      StaysSignedIff(store, cfg, front);
      if Unspoiled(cfg, events) {
        HealingRuns(store, cfg, events);
      } else if Unspoiled(cfg, front) {
        HealingRuns(store, cfg, front);
        BlindHealIff(Run(store, cfg, front), cfg, FirstKey(front).value, last.newKey, last.failing);
      }
    }
  }

  // ---- When the pair matches ----

  ghost predicate Paired(store: Store, cfg: Config) {
    var private, public := PrivateKeyIn(store, cfg), PublicKeyIn(store, cfg);
    private.Some? && public.Some? && private.value.PrivateKey? && public == Some(PublicKey(private.value.id))
  }

  lemma TokensLeaveKeys(store: Store, cfg: Config, key: nat)
    requires RolesApart(cfg)
    ensures var after := AddTokens(store, key, Roles(cfg));
            PrivateKeyIn(after, cfg) == PrivateKeyIn(store, cfg) && PublicKeyIn(after, cfg) == PublicKeyIn(store, cfg)
  {
    var after := AddTokens(store, key, Roles(cfg));
    AddTokensEffect(store, key, Roles(cfg));
    forall role | role in Roles(cfg)
      ensures SecretName(role) != TOKEN_PRIVATE_KEY && SecretName(role) != TOKEN_PUBLIC_KEY
    {
      KeysApart(cfg, role);
    }
  }

  /** A run that generates a pair not yet stored leaves a matching pair exactly when it found one, or
      found neither key secret: a single lost key secret is not healed. */
  lemma HealPairsIff(store: Store, cfg: Config, newKey: nat, failing: set<string>)
    requires RolesApart(cfg)
    requires PrivateKeyIn(store, cfg) != Some(PrivateKey(newKey)) && PublicKeyIn(store, cfg) != Some(PublicKey(newKey))
    ensures Paired(AfterHeal(store, cfg, newKey, failing).0, cfg) <==>
            Paired(store, cfg) || (TOKEN_PRIVATE_KEY !in store && TOKEN_PUBLIC_KEY !in store)
  {
    var s1 := Creation(store, TOKEN_PRIVATE_KEY, map[cfg.privateKeyFile := PrivateKey(newKey)]);
    var s2 := Creation(s1, TOKEN_PUBLIC_KEY, map[cfg.publicKeyFile := PublicKey(newKey)]);
    TokensLeaveKeys(s2, cfg, newKey);
    var private := PrivateKeyIn(store, cfg);
    if private.Some? && private.value.PrivateKey? {
      TokensLeaveKeys(store, cfg, private.value.id);
    }
  }

  // ---- Where healing fails ----

  /** The default roles are trimmed already, and keep clear of the key secrets. */
  lemma DefaultRolesApart(cfg: Config)
    requires cfg.superRoles == ""
    ensures Roles(cfg) == ["admin", "proxy", "superuser", "websocket"] && RolesApart(cfg)
  {
  }

  /** With only the public key lost, a run puts one beside the old private key that does not match it. */
  lemma LostPublicKeyMispaired(cfg: Config, failing: set<string>)
    requires cfg.superRoles == ""
    ensures var store := map[TOKEN_PRIVATE_KEY := map[cfg.privateKeyFile := PrivateKey(1)]];
            var after := AfterHeal(store, cfg, 2, failing).0;
            PrivateKeyIn(after, cfg) == Some(PrivateKey(1)) && PublicKeyIn(after, cfg) == Some(PublicKey(2))
  {
    var store := map[TOKEN_PRIVATE_KEY := map[cfg.privateKeyFile := PrivateKey(1)]];
    assert TOKEN_PRIVATE_KEY != TOKEN_PUBLIC_KEY;
    DefaultRolesApart(cfg);
    TokensLeaveKeys(store[TOKEN_PUBLIC_KEY := map[cfg.publicKeyFile := PublicKey(2)]], cfg, 2);
  }

  /** A first run, a lost token, and a run that cannot read the private key: the new token is signed by a
      pair that is not stored. */
  lemma BlindRunMissigns(cfg: Config)
    requires cfg.superRoles == ""
    ensures var first := Apply(map[], cfg, Heal(1, {}));
            var lost := Apply(first, cfg, Lose("admin"));
            var after := Apply(lost, cfg, Heal(2, {TOKEN_PRIVATE_KEY}));
            && PrivateKeyIn(after, cfg) == Some(PrivateKey(1))
            && SecretName("admin") in after && after[SecretName("admin")] == TokenSecret(2, "admin")
  {
    DefaultRolesApart(cfg);
    assert DEFAULT_ROLES[0] == "admin";
    var first := Apply(map[], cfg, Heal(1, {}));
    HealBlank(map[], cfg, 1, {});
    LoseKeeps(first, cfg, "admin");
    BlindTokens(Apply(first, cfg, Lose("admin")), cfg, 1, 2, {TOKEN_PRIVATE_KEY}, "admin");
  }

  lemma BlindTokens(store: Store, cfg: Config, key: nat, newKey: nat, failing: set<string>, role: string)
    requires RolesApart(cfg) && Healthy(store, cfg, key) && Blind(failing)
    requires role in Roles(cfg) && SecretName(role) !in store
    ensures var after := AfterHeal(store, cfg, newKey, failing).0;
            && PrivateKeyIn(after, cfg) == Some(PrivateKey(key))
            && SecretName(role) in after && after[SecretName(role)] == TokenSecret(newKey, role)
  {
    var after := AddTokens(store, newKey, Roles(cfg));
    assert AfterCreate(store, cfg, newKey) == after;
    AddTokensEffect(store, newKey, Roles(cfg));
    TokensLeaveKeys(store, cfg, newKey);
    var other :| other in Roles(cfg) && SecretName(role) == SecretName(other) &&
      after[SecretName(role)] == TokenSecret(newKey, other);
    SecretNameInjective(role, other);
  }
}
