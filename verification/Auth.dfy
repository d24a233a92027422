/** Account sessions: public metadata in a document, secrets in a vault. */
module AuthSessions {
  import opened Wrappers
  import opened Ordering
  import opened Replacing

  type Secret = string

  datatype Identity =
    | Official(username: string, uuid: string, token: Secret, xuid: Option<string>, validUntil: Option<nat>)
    | Offline(username: string, uuid: string)

  datatype AuthSession = AuthSession(
    accountId: string, providerId: string, profile: string,
    access: Option<Secret>, refresh: Option<Secret>, device: Option<Secret>, metadata: map<string, string>,
    expiresAt: Option<nat>, refreshable: bool, minecraft: Identity)

  datatype PersistedIdentity =
    | PersistedOfficial(username: string, uuid: string, xuid: Option<string>, validUntil: Option<nat>)
    | PersistedOffline(username: string, uuid: string)

  datatype PersistedSession = PersistedSession(
    accountId: string, providerId: string, profile: string, metadata: map<string, string>,
    expiresAt: Option<nat>, refreshable: bool, minecraft: PersistedIdentity)

  const ACCOUNT_FORMAT_VERSION: nat := 1

  datatype AccountDocument = AccountDocument(formatVersion: nat, accounts: seq<PersistedSession>)

  function Strip(session: AuthSession): PersistedSession {
    PersistedSession(
      session.accountId, session.providerId, session.profile, session.metadata, session.expiresAt, session.refreshable,
      match session.minecraft
      case Official(username, uuid, _, xuid, validUntil) => PersistedOfficial(username, uuid, xuid, validUntil)
      case Offline(username, uuid) => PersistedOffline(username, uuid))
  }

  // ---- secrets and their keys

  datatype SecretName = ProviderAccess | ProviderRefresh | DeviceSecret | MinecraftAccess

  const NAMES: seq<SecretName> := [ProviderAccess, ProviderRefresh, DeviceSecret, MinecraftAccess]

  function Label(name: SecretName): string {
    match name
    case ProviderAccess => "provider_access"
    case ProviderRefresh => "provider_refresh"
    case DeviceSecret => "device_secret"
    case MinecraftAccess => "minecraft_access"
  }

  function SecretOf(session: AuthSession, name: SecretName): Option<Secret> {
    match name
    case ProviderAccess => session.access
    case ProviderRefresh => session.refresh
    case DeviceSecret => session.device
    case MinecraftAccess => if session.minecraft.Official? then Some(session.minecraft.token) else None
  }

  const ROOT := "accounts/"

  function Key(accountId: string, name: SecretName): string {
    ROOT + accountId + "/" + Label(name)
  }

  lemma LabelShape(name: SecretName)
    ensures 0 < |Label(name)| <= 16
    ensures forall i :: 0 <= i < |Label(name)| ==> Label(name)[i] != '/' && Label(name)[i] != '.' && !IsControl(Label(name)[i])
  {
  }

  lemma LabelInjective(a: SecretName, b: SecretName)
    requires Label(a) == Label(b)
    ensures a == b
  {
    assert Label(a)[0] == Label(b)[0] && |Label(a)| == |Label(b)|;
  }

  /** Position of the last slash, or -1. */
  function LastSlash(s: string): int {
    if s == [] then -1 else if s[|s| - 1] == '/' then |s| - 1 else LastSlash(s[..|s| - 1])
  }

  lemma {:induction false} LastSlashBeforeLabel(front: string, text: string)
    requires forall i :: 0 <= i < |text| ==> text[i] != '/'
    ensures LastSlash(front + "/" + text) == |front|
  {
    if text != [] {
      var k := front + "/" + text;
      LastSlashBeforeLabel(front, text[..|text| - 1]);
      assert k[..|k| - 1] == front + "/" + text[..|text| - 1];
    }
  }

  lemma KeyParts(id: string, name: SecretName)
    ensures
      var k := Key(id, name);
      && LastSlash(k) == |ROOT| + |id|
      && k[|ROOT|..|ROOT| + |id|] == id && k[|ROOT| + |id| + 1..] == Label(name)
  {
    LabelShape(name);
    LastSlashBeforeLabel(ROOT + id, Label(name));
  }

  /** Keys name one account and one secret each, even though account ids may contain slashes. */
  lemma KeyInjective(a: string, m: SecretName, b: string, n: SecretName)
    ensures Key(a, m) == Key(b, n) <==> a == b && m == n
  {
    KeyParts(a, m);
    KeyParts(b, n);
    if Key(a, m) == Key(b, n) { LabelInjective(m, n); }
  }

  predicate IsControl(c: char) {
    c as int < 0x20 || 0x7f <= c as int < 0xa0
  }

  predicate DotsAt(s: string, i: nat)
    requires i < |s| - 1
  {
    s[i] == '.' && s[i + 1] == '.'
  }

  predicate HasDots(s: string) {
    exists i :: 0 <= i < |s| - 1 && DotsAt(s, i)
  }

  predicate NoControl(s: string) {
    forall i :: 0 <= i < |s| ==> !IsControl(s[i])
  }

  predicate ValidKey(key: string) {
    key != "" && |key| <= 256 && key[0] != '/' && !HasDots(key) && NoControl(key)
  }

  predicate AcceptableId(id: string) {
    0 < |id| <= 128 && NoControl(id)
  }

  /** The account part of `validate_session`. */
  predicate Acceptable(session: AuthSession, provider: string) {
    session.providerId == provider && AcceptableId(session.accountId)
  }

  lemma DotsOfConcat(a: string, b: string)
    requires a == [] || b == [] || a[|a| - 1] != '.' || b[0] != '.'
    ensures HasDots(a + b) <==> HasDots(a) || HasDots(b)
  {
    if HasDots(a) {
      var i :| 0 <= i < |a| - 1 && DotsAt(a, i);
      assert DotsAt(a + b, i);
    }
    if HasDots(b) {
      var i :| 0 <= i < |b| - 1 && DotsAt(b, i);
      assert DotsAt(a + b, |a| + i);
    }
    if HasDots(a + b) {
      var i :| 0 <= i < |a + b| - 1 && DotsAt(a + b, i);
      if i < |a| - 1 { assert DotsAt(a, i); } else { assert DotsAt(b, i - |a|); }
    }
  }

  lemma ControlOfConcat(a: string, b: string)
    ensures NoControl(a + b) <==> NoControl(a) && NoControl(b)
  {
    if NoControl(a + b) {
      assert forall i :: 0 <= i < |a| ==> a[i] == (a + b)[i];
      assert forall i :: 0 <= i < |b| ==> b[i] == (a + b)[|a| + i];
    }
  }

  lemma TailShape(name: SecretName)
    ensures var t := "/" + Label(name); NoControl(t) && !HasDots(t) && t[0] == '/' && |t| <= 17
  {
    LabelShape(name);
  }

  /** An id that passes session validation still has unusable vault keys when it contains two dots in a row. */
  lemma KeyValidIff(id: string, name: SecretName)
    requires AcceptableId(id)
    ensures ValidKey(Key(id, name)) <==> !HasDots(id)
  {
    var tail := "/" + Label(name);
    TailShape(name);
    assert ROOT + id + "/" + Label(name) == ROOT + id + tail;
    DotsOfConcat(ROOT, id);
    DotsOfConcat(ROOT + id, tail);
    ControlOfConcat(ROOT, id);
    ControlOfConcat(ROOT + id, tail);
  }

  // ---- storing and erasing, a storage step at a time

  type Vault = map<string, Secret>

  datatype Stored = Stored(vault: Vault, left: nat, ok: bool)

  /** `persist_secrets`, when the storage fails after `steps` more steps. Absent secrets are skipped. */
  function Persist(vault: Vault, session: AuthSession, names: seq<SecretName>, steps: nat): Stored
    decreases |names|
  {
    if names == [] then Stored(vault, steps, true)
    else
      match SecretOf(session, names[0])
      case None => Persist(vault, session, names[1..], steps)
      case Some(secret) =>
        var key := Key(session.accountId, names[0]);
        if !ValidKey(key) || steps == 0 then Stored(vault, steps, false)
        else Persist(vault[key := secret], session, names[1..], steps - 1)
  }

  function Erase(vault: Vault, accountId: string, names: seq<SecretName>, steps: nat): Stored
    decreases |names|
  {
    if names == [] then Stored(vault, steps, true)
    else
      var key := Key(accountId, names[0]);
      if !ValidKey(key) || steps == 0 then Stored(vault, steps, false)
      else Erase(vault - {key}, accountId, names[1..], steps - 1)
  }

  function Lookup(vault: Vault, id: string, name: SecretName): Option<Secret> {
    if Key(id, name) in vault then Some(vault[Key(id, name)]) else None
  }

  function PersistAll(sessions: map<string, AuthSession>, ids: seq<string>): (r: seq<PersistedSession>)
    requires forall id :: id in ids ==> id in sessions
    ensures |r| == |ids| && forall i :: 0 <= i < |ids| ==> r[i] == Strip(sessions[ids[i]])
  {
    seq(|ids|, i requires 0 <= i < |ids| => Strip(sessions[ids[i]]))
  }

  function Listing(sessions: map<string, AuthSession>): AccountDocument {
    AccountDocument(ACCOUNT_FORMAT_VERSION, PersistAll(sessions, Ascending(sessions.Keys)))
  }

  datatype Store = Store(sessions: map<string, AuthSession>, vault: Vault, document: Slot<AccountDocument>)

  const EMPTY := Store(map[], map[], Slot(None, None))

  datatype Event = Keep(session: AuthSession, provider: string, steps: nat) | Logout(accountId: string, steps: nat)

  datatype Applied = Applied(store: Store, left: nat, ok: bool)

  /** `save_sessions`: the account document is replaced by way of a temporary file. */
  function Save(store: Store, steps: nat): Applied {
    var c := Replaced(store.document, Listing(store.sessions), steps);
    Applied(store.(document := c.slot), c.left, c.done)
  }

  /** After the vault: the session is kept and the table saved, unless the vault failed. */
  function KeepAfter(store: Store, session: AuthSession, p: Stored): Applied {
    if !p.ok then Applied(store.(vault := p.vault), p.left, false)
    else Save(store.(vault := p.vault, sessions := store.sessions[session.accountId := session]), p.left)
  }

  /** The session is dropped before the vault is touched, the table saved after it. */
  function LogoutAfter(store: Store, id: string, e: Stored): Applied {
    var next := store.(vault := e.vault, sessions := store.sessions - {id});
    if !e.ok then Applied(next, e.left, false) else Save(next, e.left)
  }

  /** What a login, refresh or verification (`Keep`) or a logout does to the store. */
  function Apply(store: Store, event: Event): Applied {
    match event
    case Keep(session, provider, steps) =>
      if !Acceptable(session, provider) then Applied(store, steps, false)
      else KeepAfter(store, session, Persist(store.vault, session, NAMES, steps))
    case Logout(id, steps) =>
      if id !in store.sessions then Applied(store, steps, false)
      else LogoutAfter(store, id, Erase(store.vault, id, NAMES, steps))
  }

  /** A save changes the document only; with enough steps it goes through. */
  lemma SaveOutcome(store: Store, steps: nat)
    ensures
      var a := Save(store, steps);
      && a.store.sessions == store.sessions && a.store.vault == store.vault
      && (a.ok ==> a.store.document == Slot(Some(Listing(store.sessions)), None))
      && (steps >= 4 ==> a.ok)
      && (store.document.destination.Some? ==>
            && (a.ok <==> steps >= 4)
            && (steps < 3 ==> a.store.document.destination == store.document.destination)
            && (steps == 3 ==> a.store.document.destination == None))
  {
  }

  /** One persisted account back with its secrets; `None` when the vault refuses a key or lacks the game token. */
  function RestoreOne(vault: Vault, p: PersistedSession): Option<AuthSession> {
    if exists name :: !ValidKey(Key(p.accountId, name)) then None
    else
      var identity := match p.minecraft
        case PersistedOffline(username, uuid) => Some(Offline(username, uuid))
        case PersistedOfficial(username, uuid, xuid, validUntil) =>
          match Lookup(vault, p.accountId, MinecraftAccess)
          case None => None
          case Some(token) => Some(Official(username, uuid, token, xuid, validUntil));
      if identity.None? then None
      else Some(AuthSession(
        p.accountId, p.providerId, p.profile,
        Lookup(vault, p.accountId, ProviderAccess), Lookup(vault, p.accountId, ProviderRefresh), Lookup(vault, p.accountId, DeviceSecret),
        p.metadata, p.expiresAt, p.refreshable, identity.value))
  }

  function RestoreAll(vault: Vault, accounts: seq<PersistedSession>): Option<map<string, AuthSession>> {
    if accounts == [] then Some(map[])
    else
      var last := accounts[|accounts| - 1];
      var before, one := RestoreAll(vault, accounts[..|accounts| - 1]), RestoreOne(vault, last);
      if before.None? || one.None? then None else Some(before.value[last.accountId := one.value])
  }

  /** `load_sessions` into an empty session table. */
  function Reload(store: Store): Option<map<string, AuthSession>> {
    match store.document.destination
    case None => Some(map[])
    case Some(document) =>
      if document.formatVersion != ACCOUNT_FORMAT_VERSION then None else RestoreAll(store.vault, document.accounts)
  }

  // ---- what the vault holds

  lemma {:induction false} PersistLooksUp(vault: Vault, s: AuthSession, names: seq<SecretName>, steps: nat, id: string, name: SecretName)
    requires AcceptableId(s.accountId) && !HasDots(s.accountId) && |names| <= steps && Distinct(names)
    ensures
      var p := Persist(vault, s, names, steps);
      && p.ok && steps - |names| <= p.left
      && Lookup(p.vault, id, name) ==
         if id == s.accountId && name in names && SecretOf(s, name).Some? then SecretOf(s, name) else Lookup(vault, id, name)
    decreases |names|
  {
    if names != [] {
      var head, rest := names[0], names[1..];
      assert names == [head] + rest;
      KeyValidIff(s.accountId, head);
      KeyInjective(s.accountId, head, id, name);
      assert head !in rest;
      match SecretOf(s, head) {
        case None => PersistLooksUp(vault, s, rest, steps, id, name);
        case Some(secret) => PersistLooksUp(vault[Key(s.accountId, head) := secret], s, rest, steps - 1, id, name);
      }
    }
  }

  lemma {:induction false} PersistNeedsNoVault(vault: Vault, s: AuthSession, names: seq<SecretName>, steps: nat)
    requires AcceptableId(s.accountId) && HasDots(s.accountId)
    ensures
      var p := Persist(vault, s, names, steps);
      p.vault == vault && p.left == steps && (p.ok <==> forall n :: n in names ==> SecretOf(s, n).None?)
    decreases |names|
  {
    if names != [] {
      assert names == [names[0]] + names[1..];
      KeyValidIff(s.accountId, names[0]);
      PersistNeedsNoVault(vault, s, names[1..], steps);
    }
  }

  lemma ErasedInOrder(names: seq<SecretName>, steps: nat, name: SecretName)
    requires names != [] && steps > 0
    ensures name in names[..Reach(names, steps)] <==> name == names[0] || name in names[1..][..Reach(names[1..], steps - 1)]
  {
    assert names[..Reach(names, steps)] == [names[0]] + names[1..][..Reach(names[1..], steps - 1)];
  }

  /** How many of the names are dealt with in that many steps. */
  function Reach(names: seq<SecretName>, steps: nat): (k: nat)
    ensures k <= |names| && k <= steps
  {
    if steps < |names| then steps else |names|
  }

  /** Erasing, cut anywhere: exactly the names reached lose their secret, and nothing is touched under an unusable key. */
  lemma {:induction false} EraseLooksUp(vault: Vault, account: string, names: seq<SecretName>, steps: nat, id: string, name: SecretName)
    requires AcceptableId(account)
    ensures
      var e := Erase(vault, account, names, steps);
      && (e.ok <==> names == [] || (!HasDots(account) && |names| <= steps))
      && (HasDots(account) ==> e.vault == vault)
      && (!HasDots(account) ==> e.left == steps - Reach(names, steps))
      && (!HasDots(account) ==>
            Lookup(e.vault, id, name) == if id == account && name in names[..Reach(names, steps)] then None else Lookup(vault, id, name))
    decreases |names|
  {
    if names != [] {
      var head, rest := names[0], names[1..];
      KeyValidIff(account, head);
      KeyInjective(account, head, id, name);
      if !HasDots(account) && steps > 0 {
        EraseLooksUp(vault - {Key(account, head)}, account, rest, steps - 1, id, name);
        ErasedInOrder(names, steps, name);
      }
    }
  }

  lemma NamesAreAll()
    ensures Distinct(NAMES) && |NAMES| == 4 && forall n: SecretName :: n in NAMES
  {
    assert NAMES[0] == ProviderAccess && NAMES[1] == ProviderRefresh && NAMES[2] == DeviceSecret && NAMES[3] == MinecraftAccess;
    forall n: SecretName ensures n in NAMES {
      match n { case ProviderAccess => case ProviderRefresh => case DeviceSecret => case MinecraftAccess => }
    }
  }

  // ---- runs

  function Run(events: seq<Event>): Store {
    if events == [] then EMPTY else Apply(Run(events[..|events| - 1]), events[|events| - 1]).store
  }

  /** The steps of one event without a failure: at most four in the vault and four to replace the document. */
  const ENOUGH: nat := 8

  /** No storage step fails. */
  ghost predicate Quiet(events: seq<Event>) {
    forall e :: e in events ==> e.steps >= ENOUGH
  }

  /** The last secret of that name presented for the account since its last logout. */
  function LastPresent(events: seq<Event>, id: string, name: SecretName): Option<Secret> {
    if events == [] then None
    else
      var before := LastPresent(events[..|events| - 1], id, name);
      match events[|events| - 1]
      case Keep(s, provider, _) =>
        if Acceptable(s, provider) && s.accountId == id && SecretOf(s, name).Some? then SecretOf(s, name) else before
      case Logout(account, _) => if account == id then None else before
  }

  ghost predicate Consistent(store: Store, events: seq<Event>, id: string, name: SecretName) {
    && (id in store.sessions ==> store.sessions[id].accountId == id && AcceptableId(id))
    && (!HasDots(id) ==> Lookup(store.vault, id, name) == LastPresent(events, id, name))
    && (!HasDots(id) && id !in store.sessions ==> LastPresent(events, id, name).None?)
    && (id in store.sessions && SecretOf(store.sessions[id], name).Some? ==>
          !HasDots(id) && LastPresent(events, id, name) == SecretOf(store.sessions[id], name))
  }

  /** Without a storage failure a kept session is stored unless its id has no usable keys but it has secrets. */
  lemma KeepQuietly(store: Store, e: Event, id: string, name: SecretName)
    requires e.Keep? && e.steps >= ENOUGH
    ensures
      var s, a := e.session, Apply(store, e);
      && (a.store.sessions == store.sessions || (Acceptable(s, e.provider) && a.store.sessions == store.sessions[s.accountId := s]))
      && (Acceptable(s, e.provider) && !HasDots(s.accountId) ==> a.store.sessions == store.sessions[s.accountId := s])
      && (HasDots(s.accountId) && s.accountId in a.store.sessions && a.store.sessions != store.sessions ==> SecretOf(s, name).None?)
      && Lookup(a.store.vault, id, name) ==
         if Acceptable(s, e.provider) && !HasDots(s.accountId) && id == s.accountId && SecretOf(s, name).Some? then SecretOf(s, name)
         else Lookup(store.vault, id, name)
  {
    var s := e.session;
    if Acceptable(s, e.provider) {
      NamesAreAll();
      assert name in NAMES;
      if HasDots(s.accountId) {
        PersistNeedsNoVault(store.vault, s, NAMES, e.steps);
      } else {
        PersistLooksUp(store.vault, s, NAMES, e.steps, id, name);
      }
      Kept(store, s, Persist(store.vault, s, NAMES, e.steps));
    }
  }

  lemma StepKeep(store: Store, front: seq<Event>, e: Event, id: string, name: SecretName)
    requires e.Keep? && e.steps >= ENOUGH && Consistent(store, front, id, name)
    ensures Consistent(Apply(store, e).store, front + [e], id, name)
  {
    assert (front + [e])[..|front|] == front;
    KeepQuietly(store, e, id, name);
  }

  lemma LogOutQuietly(store: Store, account: string, steps: nat, id: string, name: SecretName)
    requires steps >= ENOUGH && account in store.sessions && AcceptableId(account)
    ensures
      var a := Apply(store, Logout(account, steps));
      && a.store.sessions == store.sessions - {account}
      && (a.ok <==> !HasDots(account))
      && Lookup(a.store.vault, id, name) == if !HasDots(account) && id == account then None else Lookup(store.vault, id, name)
  {
    NamesAreAll();
    assert NAMES[..Reach(NAMES, steps)] == NAMES && name in NAMES;
    EraseLooksUp(store.vault, account, NAMES, steps, id, name);
    LoggedOut(store, account, Erase(store.vault, account, NAMES, steps));
  }

  lemma LoggedOut(store: Store, account: string, e: Stored)
    ensures
      var a := LogoutAfter(store, account, e);
      && a.store.sessions == store.sessions - {account} && a.store.vault == e.vault
      && (!e.ok ==> !a.ok && a.store.document == store.document)
      && (e.ok && e.left >= 4 ==> a.ok)
      && (a.ok ==> a.store.document == Slot(Some(Listing(a.store.sessions)), None))
      && (e.ok && store.document.destination.Some? ==>
            && (a.ok <==> e.left >= 4)
            && (e.left < 3 ==> a.store.document.destination == store.document.destination)
            && (e.left == 3 ==> a.store.document.destination == None))
  {
    SaveOutcome(store.(vault := e.vault, sessions := store.sessions - {account}), e.left);
  }

  lemma Kept(store: Store, s: AuthSession, p: Stored)
    ensures
      var a := KeepAfter(store, s, p);
      && a.store.vault == p.vault
      && a.store.sessions == (if p.ok then store.sessions[s.accountId := s] else store.sessions)
      && (p.ok && p.left >= 4 ==> a.ok)
      && (a.ok ==> p.ok && a.store.document == Slot(Some(Listing(a.store.sessions)), None))
  {
    if p.ok { SaveOutcome(store.(vault := p.vault, sessions := store.sessions[s.accountId := s]), p.left); }
  }

  lemma StepLogout(store: Store, front: seq<Event>, e: Event, id: string, name: SecretName)
    requires e.Logout? && e.steps >= ENOUGH
    requires Consistent(store, front, id, name) && Consistent(store, front, e.accountId, name)
    ensures Consistent(Apply(store, e).store, front + [e], id, name)
  {
    assert (front + [e])[..|front|] == front;
    if e.accountId in store.sessions { LogOutQuietly(store, e.accountId, e.steps, id, name); }
  }

  /** After any run without storage failures the vault holds, per account and name, the last secret presented since the last logout. */
  lemma {:induction false} VaultHoldsLastPresent(events: seq<Event>, id: string, name: SecretName)
    requires Quiet(events)
    ensures Consistent(Run(events), events, id, name)
    decreases |events|
  {
    if events != [] {
      var front, e := events[..|events| - 1], events[|events| - 1];
      assert events == front + [e];
      VaultHoldsLastPresent(front, id, name);
      match e {
        case Keep(_, _, _) => StepKeep(Run(front), front, e, id, name);
        case Logout(account, _) =>
          VaultHoldsLastPresent(front, account, name);
          StepLogout(Run(front), front, e, id, name);
      }
    }
  }

  /** The last event went through, so the document describes the session table. */
  predicate LastSucceeded(events: seq<Event>) {
    events != [] && Apply(Run(events[..|events| - 1]), events[|events| - 1]).ok
  }

  lemma OkMeansSaved(store: Store, event: Event)
    requires Apply(store, event).ok
    ensures var after := Apply(store, event).store; after.document == Slot(Some(Listing(after.sessions)), None)
  {
    match event {
      case Keep(s, provider, steps) => Kept(store, s, Persist(store.vault, s, NAMES, steps));
      case Logout(id, steps) => LoggedOut(store, id, Erase(store.vault, id, NAMES, steps));
    }
  }

  lemma SavedDocument(events: seq<Event>)
    requires LastSucceeded(events)
    ensures Run(events).document == Slot(Some(Listing(Run(events).sessions)), None)
  {
    OkMeansSaved(Run(events[..|events| - 1]), events[|events| - 1]);
  }

  // ---- reloading

  lemma ReloadIs(events: seq<Event>)
    requires LastSucceeded(events)
    ensures Reload(Run(events)) ==
            RestoreAll(Run(events).vault, PersistAll(Run(events).sessions, Ascending(Run(events).sessions.Keys)))
  {
    SavedDocument(events);
  }

  /** `restored` is `s` with its optional secrets replaced by the last ones presented. */
  ghost predicate RestoredFrom(restored: AuthSession, s: AuthSession, events: seq<Event>) {
    && Strip(restored) == Strip(s) && restored.minecraft == s.minecraft
    && restored.access == LastPresent(events, s.accountId, ProviderAccess)
    && restored.refresh == LastPresent(events, s.accountId, ProviderRefresh)
    && restored.device == LastPresent(events, s.accountId, DeviceSecret)
  }

  lemma RestoreStripped(vault: Vault, s: AuthSession)
    requires AcceptableId(s.accountId) && !HasDots(s.accountId)
    requires s.minecraft.Official? ==> Lookup(vault, s.accountId, MinecraftAccess) == Some(s.minecraft.token)
    ensures RestoreOne(vault, Strip(s)) == Some(s.(access := Lookup(vault, s.accountId, ProviderAccess),
                                                  refresh := Lookup(vault, s.accountId, ProviderRefresh),
                                                  device := Lookup(vault, s.accountId, DeviceSecret)))
  {
    forall name ensures ValidKey(Key(s.accountId, name)) { KeyValidIff(s.accountId, name); }
  }

  lemma DottedIsNotRestored(vault: Vault, s: AuthSession)
    requires AcceptableId(s.accountId) && HasDots(s.accountId)
    ensures RestoreOne(vault, Strip(s)).None?
  {
    KeyValidIff(s.accountId, ProviderAccess);
  }

  lemma RestoreOneSpec(events: seq<Event>, id: string)
    requires Quiet(events) && id in Run(events).sessions
    ensures Restorable(events, id, RestoreOne(Run(events).vault, Strip(Run(events).sessions[id])))
  {
    VaultHoldsLastPresent(events, id, MinecraftAccess);
    VaultHoldsLastPresent(events, id, ProviderAccess);
    VaultHoldsLastPresent(events, id, ProviderRefresh);
    VaultHoldsLastPresent(events, id, DeviceSecret);
    var store := Run(events);
    var s := store.sessions[id];
    if HasDots(id) {
      DottedIsNotRestored(store.vault, s);
    } else {
      assert s.minecraft.Official? ==> SecretOf(s, MinecraftAccess) == Some(s.minecraft.token);
      RestoreStripped(store.vault, s);
    }
  }

  ghost predicate Restorable(events: seq<Event>, id: string, r: Option<AuthSession>)
    requires id in Run(events).sessions
  {
    && Run(events).sessions[id].accountId == id
    && (r.Some? <==> !HasDots(id))
    && (r.Some? ==> RestoredFrom(r.value, Run(events).sessions[id], events))
  }

  ghost predicate AllRestored(r: map<string, AuthSession>, ids: seq<string>, sessions: map<string, AuthSession>, events: seq<Event>) {
    && (forall id :: id in r <==> id in ids)
    && (forall id :: id in r ==> id in sessions && RestoredFrom(r[id], sessions[id], events))
  }

  lemma RestoredOneMore(r: map<string, AuthSession>, front: seq<string>, last: string, s: AuthSession, sessions: map<string, AuthSession>, events: seq<Event>)
    requires AllRestored(r, front, sessions, events) && last in sessions && RestoredFrom(s, sessions[last], events)
    ensures AllRestored(r[last := s], front + [last], sessions, events)
  {
  }

  ghost predicate NoneDotted(ids: seq<string>) {
    forall id :: id in ids ==> !HasDots(id)
  }

  lemma PersistAppend(sessions: map<string, AuthSession>, front: seq<string>, last: string)
    requires last in sessions && forall id :: id in front ==> id in sessions
    ensures PersistAll(sessions, front + [last]) == PersistAll(sessions, front) + [Strip(sessions[last])]
  {
  }

  lemma RestoreAppend(vault: Vault, ps: seq<PersistedSession>, p: PersistedSession)
    ensures RestoreAll(vault, ps + [p]) ==
      if RestoreAll(vault, ps).None? || RestoreOne(vault, p).None? then None
      else Some(RestoreAll(vault, ps).value[p.accountId := RestoreOne(vault, p).value])
  {
    assert (ps + [p])[..|ps|] == ps;
  }

  lemma {:induction false} RestoreSome(events: seq<Event>, store: Store, ids: seq<string>)
    requires Quiet(events) && store == Run(events) && forall id :: id in ids ==> id in store.sessions
    ensures
      var r := RestoreAll(store.vault, PersistAll(store.sessions, ids));
      && (r.Some? <==> NoneDotted(ids))
      && (r.Some? ==> AllRestored(r.value, ids, store.sessions, events))
    decreases |ids|
  {
    if ids != [] {
      var front, last := ids[..|ids| - 1], ids[|ids| - 1];
      assert ids == front + [last];
      RestoreSome(events, store, front);
      RestoreOneSpec(events, last);
      PersistAppend(store.sessions, front, last);
      RestoreAppend(store.vault, PersistAll(store.sessions, front), Strip(store.sessions[last]));
      assert NoneDotted(ids) <==> NoneDotted(front) && !HasDots(last);
      var before, one := RestoreAll(store.vault, PersistAll(store.sessions, front)), RestoreOne(store.vault, Strip(store.sessions[last]));
      if before.Some? && one.Some? { RestoredOneMore(before.value, front, last, one.value, store.sessions, events); }
    }
  }

  /** Reloading works exactly when no id is dotted, and then rebuilds every session with its last secrets. */
  ghost predicate Rebuilds(r: Option<map<string, AuthSession>>, sessions: map<string, AuthSession>, events: seq<Event>) {
    && (r.Some? <==> forall id :: id in sessions ==> !HasDots(id))
    && (r.Some? ==> r.value.Keys == sessions.Keys)
    && (r.Some? ==> forall id :: id in r.value ==> id in sessions && RestoredFrom(r.value[id], sessions[id], events))
  }

  lemma RebuildsFromIds(r: Option<map<string, AuthSession>>, ids: seq<string>, sessions: map<string, AuthSession>, events: seq<Event>)
    requires ids == Ascending(sessions.Keys)
    requires r.Some? <==> NoneDotted(ids)
    requires r.Some? ==> AllRestored(r.value, ids, sessions, events)
    ensures Rebuilds(r, sessions, events)
  {
    assert forall id :: id in ids <==> id in sessions;
    if r.Some? { assert forall id :: id in r.value.Keys <==> id in sessions.Keys; }
  }

  /**
   * The round trip through document and vault, for every run without storage failures that ends in a success:
   * reloading works exactly when no account id contains two dots in a row, and then rebuilds every account,
   * each optional secret being the last one presented since the account's last logout.
   */
  lemma ReloadRebuildsSessions(events: seq<Event>)
    requires Quiet(events) && LastSucceeded(events)
    ensures Rebuilds(Reload(Run(events)), Run(events).sessions, events)
  {
    ReloadIs(events);
    var store := Run(events);
    var ids := Ascending(store.sessions.Keys);
    RestoreSome(events, store, ids);
    RebuildsFromIds(RestoreAll(store.vault, PersistAll(store.sessions, ids)), ids, store.sessions, events);
  }

  /** Some optional secret of the session is absent although an earlier one was presented. */
  ghost predicate BecameAbsent(events: seq<Event>, s: AuthSession) {
    exists name :: SecretOf(s, name).None? && LastPresent(events, s.accountId, name).Some? && name != MinecraftAccess
  }

  lemma ExactIff(events: seq<Event>, restored: AuthSession, id: string)
    requires Quiet(events) && id in Run(events).sessions && RestoredFrom(restored, Run(events).sessions[id], events)
    ensures restored == Run(events).sessions[id] <==> !BecameAbsent(events, Run(events).sessions[id])
  {
    forall name ensures Consistent(Run(events), events, id, name) { VaultHoldsLastPresent(events, id, name); }
    var s := Run(events).sessions[id];
    if restored != s {
      var name := if restored.access != s.access then ProviderAccess else if restored.refresh != s.refresh then ProviderRefresh else DeviceSecret;
      assert SecretOf(restored, name) != SecretOf(s, name);
      assert Consistent(Run(events), events, id, name);
      assert SecretOf(s, name).None? && LastPresent(events, s.accountId, name).Some? && name != MinecraftAccess;
    }
    if BecameAbsent(events, s) {
      var name :| SecretOf(s, name).None? && LastPresent(events, s.accountId, name).Some? && name != MinecraftAccess;
      assert SecretOf(restored, name) == LastPresent(events, s.accountId, name);
    }
  }

  /** The reloaded table equals the saved one exactly when no secret became absent after having been present. */
  lemma ReloadIsExactIffNothingBecameAbsent(events: seq<Event>)
    requires Quiet(events) && LastSucceeded(events)
    requires forall id :: id in Run(events).sessions ==> !HasDots(id)
    ensures Reload(Run(events)) == Some(Run(events).sessions) <==>
            forall id :: id in Run(events).sessions ==> !BecameAbsent(events, Run(events).sessions[id])
  {
    ReloadRebuildsSessions(events);
    var sessions, r := Run(events).sessions, Reload(Run(events));
    forall id | id in sessions ensures r.value[id] == sessions[id] <==> !BecameAbsent(events, sessions[id]) {
      ExactIff(events, r.value[id], id);
    }
    if forall id :: id in sessions ==> !BecameAbsent(events, sessions[id]) {
      assert r.value == sessions;
    }
  }

  /** A successful logout removes every vault key of that account and none of another. */
  lemma LogoutErasesOneAccount(events: seq<Event>, account: string, steps: nat, id: string, name: SecretName)
    requires Quiet(events) && steps >= ENOUGH && Apply(Run(events), Logout(account, steps)).ok
    ensures
      var after := Apply(Run(events), Logout(account, steps)).store;
      && account !in after.sessions
      && Lookup(after.vault, id, name) == if id == account then None else Lookup(Run(events).vault, id, name)
  {
    VaultHoldsLastPresent(events, account, name);
    LogOutQuietly(Run(events), account, steps, id, name);
  }

  // ---- two ways to lose the ability to reload

  /** A session without secrets whose id contains two dots is saved, and no reload succeeds while it is listed. */
  lemma DottedAccountBlocksReload(events: seq<Event>, s: AuthSession, steps: nat)
    requires Quiet(events) && steps >= ENOUGH
    requires AcceptableId(s.accountId) && HasDots(s.accountId) && forall n :: SecretOf(s, n).None?
    ensures
      var login := Keep(s, s.providerId, steps);
      Apply(Run(events), login).ok && Reload(Run(events + [login])).None?
  {
    var login := Keep(s, s.providerId, steps);
    SecretlessIsKept(Run(events), s, steps);
    assert (events + [login])[..|events|] == events;
    ReloadRebuildsSessions(events + [login]);
    assert s.accountId in Run(events + [login]).sessions;
  }

  lemma SecretlessIsKept(store: Store, s: AuthSession, steps: nat)
    requires steps >= ENOUGH && AcceptableId(s.accountId) && HasDots(s.accountId) && forall n :: SecretOf(s, n).None?
    ensures var a := Apply(store, Keep(s, s.providerId, steps)); a.ok && s.accountId in a.store.sessions
  {
    var p := Persist(store.vault, s, NAMES, steps);
    PersistNeedsNoVault(store.vault, s, NAMES, steps);
    Kept(store, s, p);
  }

  ghost predicate AllRestorable(vault: Vault, accounts: seq<PersistedSession>) {
    forall p :: p in accounts ==> RestoreOne(vault, p).Some?
  }

  lemma OneMoreRestorable(vault: Vault, front: seq<PersistedSession>, last: PersistedSession)
    ensures AllRestorable(vault, front + [last]) <==> AllRestorable(vault, front) && RestoreOne(vault, last).Some?
  {
    assert forall p :: p in front + [last] <==> p in front || p == last;
  }

  /** Reloading works exactly when every listed account can be restored. */
  lemma {:induction false} AllOrNothing(vault: Vault, accounts: seq<PersistedSession>)
    ensures RestoreAll(vault, accounts).Some? <==> AllRestorable(vault, accounts)
    decreases |accounts|
  {
    if accounts != [] {
      var front, last := accounts[..|accounts| - 1], accounts[|accounts| - 1];
      assert accounts == front + [last];
      AllOrNothing(vault, front);
      OneMoreRestorable(vault, front, last);
      RestoreAppend(vault, front, last);
    }
  }

  /** What one account needs from the vault. */
  predicate HasToken(vault: Vault, s: AuthSession) {
    s.minecraft.Official? ==> Lookup(vault, s.accountId, MinecraftAccess).Some?
  }

  lemma RestorableIff(vault: Vault, s: AuthSession)
    requires AcceptableId(s.accountId) && !HasDots(s.accountId)
    ensures RestoreOne(vault, Strip(s)).Some? <==> HasToken(vault, s)
  {
    forall name ensures ValidKey(Key(s.accountId, name)) { KeyValidIff(s.accountId, name); }
  }

  /** Every account in the table has a usable id and, in the vault, the token it needs. */
  ghost predicate Sane(store: Store) {
    forall id :: id in store.sessions ==>
      store.sessions[id].accountId == id && AcceptableId(id) && !HasDots(id) && HasToken(store.vault, store.sessions[id])
  }

  lemma SessionIsSane(events: seq<Event>, store: Store, id: string)
    requires Quiet(events) && store == Run(events) && id in store.sessions && !HasDots(id)
    ensures store.sessions[id].accountId == id && AcceptableId(id) && HasToken(store.vault, store.sessions[id])
  {
    VaultHoldsLastPresent(events, id, MinecraftAccess);
    var s := store.sessions[id];
    assert s.minecraft.Official? ==> SecretOf(s, MinecraftAccess).Some?;
  }

  lemma RunIsSane(events: seq<Event>, store: Store)
    requires Quiet(events) && store == Run(events) && forall id :: id in store.sessions ==> !HasDots(id)
    ensures Sane(store)
  {
    forall id | id in store.sessions
      ensures store.sessions[id].accountId == id && AcceptableId(id) && HasToken(store.vault, store.sessions[id])
    {
      SessionIsSane(events, store, id);
    }
  }

  lemma ListedOnesOfTable(sessions: map<string, AuthSession>)
    ensures forall p :: p in Listing(sessions).accounts <==> exists id :: id in sessions && p == Strip(sessions[id])
  {
    var ids := Ascending(sessions.Keys);
    var accounts := Listing(sessions).accounts;
    forall p ensures p in accounts <==> exists id :: id in sessions && p == Strip(sessions[id]) {
      if p in accounts {
        var i :| 0 <= i < |accounts| && accounts[i] == p;
        assert ids[i] in ids && p == Strip(sessions[ids[i]]);
      }
      if id :| id in sessions && p == Strip(sessions[id]) {
        assert id in ids;
        var i :| 0 <= i < |ids| && ids[i] == id;
        assert accounts[i] == p;
      }
    }
  }

  /** A document that lists these sessions reloads from a vault exactly when every one of them finds its token there. */
  lemma ListingReloads(vault: Vault, sessions: map<string, AuthSession>)
    requires forall id :: id in sessions ==> sessions[id].accountId == id && AcceptableId(id) && !HasDots(id)
    ensures RestoreAll(vault, Listing(sessions).accounts).Some? <==> forall id :: id in sessions ==> HasToken(vault, sessions[id])
  {
    AllOrNothing(vault, Listing(sessions).accounts);
    ListedOnesOfTable(sessions);
    forall id | id in sessions ensures RestoreOne(vault, Strip(sessions[id])).Some? <==> HasToken(vault, sessions[id]) {
      RestorableIff(vault, sessions[id]);
    }
  }

  /** The vault after a logout cut after so many steps: the account's token goes with the fourth. */
  lemma CutLogoutVault(store: Store, account: string, steps: nat, s: AuthSession)
    requires AcceptableId(account) && !HasDots(account) && HasToken(store.vault, s)
    ensures
      var e := Erase(store.vault, account, NAMES, steps);
      && (e.ok <==> |NAMES| <= steps) && e.left == steps - Reach(NAMES, steps)
      && (HasToken(e.vault, s) <==> s.accountId != account || steps < |NAMES| || s.minecraft.Offline?)
  {
    EraseLooksUp(store.vault, account, NAMES, steps, s.accountId, MinecraftAccess);
    assert MinecraftAccess in NAMES[..Reach(NAMES, steps)] <==> steps >= |NAMES| by {
      assert NAMES[3] == MinecraftAccess && NAMES[..3] == [ProviderAccess, ProviderRefresh, DeviceSecret];
      if steps < |NAMES| {
        assert NAMES[..Reach(NAMES, steps)] == NAMES[..3][..steps];
      } else {
        assert NAMES[..Reach(NAMES, steps)] == NAMES;
      }
    }
  }

  /** While the old document is in place, reloading depends on the token of the account that is logging out. */
  lemma CutBeforeTheDocument(store: Store, account: string, steps: nat)
    requires Sane(store) && account in store.sessions && store.document == Slot(Some(Listing(store.sessions)), None) && steps < |NAMES| + 3
    ensures
      var cut := Apply(store, Logout(account, steps));
      && !cut.ok
      && (Reload(cut.store).Some? <==> steps < |NAMES| || store.sessions[account].minecraft.Offline?)
  {
    var e := Erase(store.vault, account, NAMES, steps);
    CutLogoutVault(store, account, steps, store.sessions[account]);
    LoggedOut(store, account, e);
    TokensAfterCut(store, account, steps);
    ListingReloads(e.vault, store.sessions);
  }

  lemma TokensAfterCut(store: Store, account: string, steps: nat)
    requires Sane(store) && account in store.sessions
    ensures
      (forall id :: id in store.sessions ==> HasToken(Erase(store.vault, account, NAMES, steps).vault, store.sessions[id]))
      <==> steps < |NAMES| || store.sessions[account].minecraft.Offline?
  {
    var vault := Erase(store.vault, account, NAMES, steps).vault;
    forall id | id in store.sessions
      ensures HasToken(vault, store.sessions[id]) <==> id != account || steps < |NAMES| || store.sessions[account].minecraft.Offline?
    {
      CutLogoutVault(store, account, steps, store.sessions[id]);
    }
    assert account in store.sessions;
  }

  /**
   * A logout cut after any number of steps. It goes through with eight. A reload afterwards works exactly when the
   * game token is still in the vault, or the old document is gone already, or the account is an offline one; and
   * between the removal of the old document and the arrival of the new one it works but finds no account at all.
   */
  lemma InterruptedLogout(events: seq<Event>, store: Store, account: string, steps: nat)
    requires Quiet(events) && LastSucceeded(events) && store == Run(events) && account in store.sessions
    requires forall id :: id in store.sessions ==> !HasDots(id)
    ensures
      var cut := Apply(store, Logout(account, steps));
      && (cut.ok <==> steps >= |NAMES| + 4)
      && (Reload(cut.store).Some? <==> steps < |NAMES| || steps >= |NAMES| + 3 || store.sessions[account].minecraft.Offline?)
      && (steps == |NAMES| + 3 ==> Reload(cut.store) == Some(map[]))
  {
    RunIsSane(events, store);
    SavedDocument(events);
    if steps < |NAMES| + 3 {
      CutBeforeTheDocument(store, account, steps);
    } else {
      CutLogoutVault(store, account, steps, store.sessions[account]);
      LoggedOut(store, account, Erase(store.vault, account, NAMES, steps));
      if steps >= ENOUGH { CompleteLogoutReloads(events, account, steps); }
    }
  }

  lemma CompleteLogoutReloads(events: seq<Event>, account: string, steps: nat)
    requires Quiet(events) && steps >= ENOUGH && account in Run(events).sessions
    requires Apply(Run(events), Logout(account, steps)).ok && forall id :: id in Run(events).sessions ==> !HasDots(id)
    ensures Reload(Apply(Run(events), Logout(account, steps)).store).Some?
  {
    var longer := events + [Logout(account, steps)];
    assert longer[..|events|] == events;
    VaultHoldsLastPresent(events, account, MinecraftAccess);
    LogOutQuietly(Run(events), account, steps, account, MinecraftAccess);
    ReloadRebuildsSessions(longer);
  }

  /** In particular, cut right after the vault, a logout leaves an official account no reload can restore. */
  lemma InterruptedLogoutBlocksReload(events: seq<Event>, store: Store, account: string)
    requires Quiet(events) && LastSucceeded(events) && store == Run(events)
    requires account in store.sessions && store.sessions[account].minecraft.Official? && forall id :: id in store.sessions ==> !HasDots(id)
    ensures
      var cut := Apply(store, Logout(account, |NAMES|));
      !cut.ok && account !in cut.store.sessions && Reload(cut.store).None?
  {
    InterruptedLogout(events, store, account, |NAMES|);
  }

  /** A save cut after any number of steps loses the account list from view exactly between removal and rename. */
  lemma CutSaveHidesEveryone(store: Store, steps: nat)
    requires store.document.destination.Some?
    ensures
      var cut := Save(store, steps).store;
      && (cut.document.destination.None? <==> steps == 3)
      && (steps == 3 ==> Reload(cut) == Some(map[]) && cut.document.temporary == Some(Whole(Listing(store.sessions))))
  {
  }

  lemma OverwriteOnce(before: map<string, AuthSession>, between: map<string, AuthSession>, id: string, first: AuthSession, second: AuthSession)
    requires between == before || between == before[id := first]
    ensures between[id := second] == before[id := second]
  {
  }

  // ---- the manager

  /** What a provider answers: a session, or an error. */
  type Reply = Option<AuthSession>

  class AuthManager {
    var sessions: map<string, AuthSession>
    var vault: Vault
    const accounts: Document<AccountDocument>
    /** Storage steps before the next failure. */
    const clock: Clock

    constructor (accounts: Document<AccountDocument>, clock: Clock)
      ensures sessions == map[] && vault == map[] && this.accounts == accounts && this.clock == clock
    {
      sessions, vault, this.accounts, this.clock := map[], map[], accounts, clock;
    }

    function Now(): Store
      reads this, accounts
    {
      Store(sessions, vault, accounts.Now())
    }

    /** The session is in the table, the other entries are as before, and the document describes the table. */
    predicate KeptIn(before: map<string, AuthSession>, session: AuthSession)
      reads this, accounts
    {
      sessions == before[session.accountId := session] && accounts.destination == Some(Listing(sessions))
    }

    method PersistSecrets(session: AuthSession, names: seq<SecretName>) returns (ok: bool)
      modifies this`vault, clock
      ensures Stored(vault, clock.left, ok) == Persist(old(vault), session, names, old(clock.left))
    {
      for i := 0 to |names|
        invariant Persist(vault, session, names[i..], clock.left) == Persist(old(vault), session, names, old(clock.left))
      {
        assert names[i..][1..] == names[i + 1..];
        var secret := SecretOf(session, names[i]);
        if secret.Some? {
          var key := Key(session.accountId, names[i]);
          if !ValidKey(key) { return false; }
          var dead := clock.Tick();
          if dead { return false; }
          vault := vault[key := secret.value];
        }
      }
      ok := true;
    }

    method DeleteSecrets(accountId: string, names: seq<SecretName>) returns (ok: bool)
      modifies this`vault, clock
      ensures Stored(vault, clock.left, ok) == Erase(old(vault), accountId, names, old(clock.left))
    {
      for i := 0 to |names|
        invariant Erase(vault, accountId, names[i..], clock.left) == Erase(old(vault), accountId, names, old(clock.left))
      {
        assert names[i..][1..] == names[i + 1..];
        var key := Key(accountId, names[i]);
        if !ValidKey(key) { return false; }
        var dead := clock.Tick();
        if dead { return false; }
        vault := vault - {key};
      }
      ok := true;
    }

    method SaveSessions() returns (ok: bool)
      modifies accounts, clock
      ensures Applied(Now(), clock.left, ok) == Save(old(Now()), old(clock.left))
    {
      ok := accounts.Replace(Listing(sessions), clock);
    }

    /** Table and document, once the vault has taken the secrets or refused. */
    method KeepInTable(session: AuthSession, stored: bool) returns (ok: bool)
      modifies this`sessions, accounts, clock
      ensures Applied(Now(), clock.left, ok) == KeepAfter(old(Now()), session, Stored(vault, old(clock.left), stored))
    {
      if !stored { return false; }
      sessions := sessions[session.accountId := session];
      ok := SaveSessions();
    }

    /** The common tail of `finish_step`, `refresh` and `identity_for_launch`. */
    method KeepSession(session: AuthSession, provider: string) returns (ok: bool)
      modifies this, accounts, clock
      ensures Applied(Now(), clock.left, ok) == Apply(old(Now()), Keep(session, provider, old(clock.left)))
      ensures ok ==> KeptIn(old(sessions), session)
    {
      if !Acceptable(session, provider) { return false; }
      ghost var before := Now();
      var stored := PersistSecrets(session, NAMES);
      ghost var p := Stored(vault, clock.left, stored);
      ok := KeepInTable(session, stored);
      Kept(before, session, p);
    }

    method Refresh(accountId: string, reply: Reply) returns (session: Option<AuthSession>)
      modifies this, accounts, clock
      ensures
        var before := old(Now());
        if accountId in before.sessions && before.sessions[accountId].refreshable && reply.Some? && reply.value.accountId == accountId then
          var a := Apply(before, Keep(reply.value, before.sessions[accountId].providerId, old(clock.left)));
          Applied(Now(), clock.left, session.Some?) == a && (a.ok ==> session == reply)
        else session.None? && Now() == before && clock.left == old(clock.left)
      ensures session.Some? ==> accountId in old(sessions) && session.value.accountId == accountId && KeptIn(old(sessions), session.value)
    {
      if accountId !in sessions || !sessions[accountId].refreshable || reply.None? { return None; }
      var provider := sessions[accountId].providerId;
      if !Acceptable(reply.value, provider) || reply.value.accountId != accountId { return None; }
      var ok := KeepSession(reply.value, provider);
      session := if ok then reply else None;
    }

    /** The session to verify: refreshed first when it has expired. */
    method CurrentSession(accountId: string, now: nat, refreshed: Reply) returns (session: Option<AuthSession>)
      modifies this, accounts, clock
      ensures session.Some? ==> accountId in old(sessions)
      ensures session.Some? ==>
        || (sessions == old(sessions) && session.value == old(sessions)[accountId])
        || (refreshed == session && session.value.accountId == accountId && KeptIn(old(sessions), session.value))
      ensures accountId !in old(sessions) ==> session.None? && Now() == old(Now())
    {
      if accountId !in sessions { return None; }
      session := Some(sessions[accountId]);
      if session.value.expiresAt.Some? && session.value.expiresAt.value <= now {
        session := Refresh(accountId, refreshed);
      }
    }

    method KeepVerified(session: AuthSession, provider: string) returns (ok: bool)
      modifies this, accounts, clock
      ensures ok ==> KeptIn(old(sessions), session)
    {
      ok := KeepSession(session, provider);
    }

    /** Refreshes first when the session has expired, then verifies; the verified identity is kept and returned. */
    method IdentityForLaunch(accountId: string, now: nat, refreshed: Reply, verified: Reply) returns (identity: Option<Identity>)
      modifies this, accounts, clock
      ensures identity.Some? ==>
        && accountId in old(sessions) && verified.Some? && verified.value.accountId == accountId
        && KeptIn(old(sessions), verified.value) && identity.value == verified.value.minecraft
      ensures accountId !in old(sessions) ==> identity.None? && Now() == old(Now())
    {
      var session := CurrentSession(accountId, now, refreshed);
      if session.None? { return None; }
      if verified.None? || !Acceptable(verified.value, session.value.providerId) || verified.value.accountId != accountId { return None; }
      ghost var between := sessions;
      var ok := KeepVerified(verified.value, session.value.providerId);
      if ok { OverwriteOnce(old(sessions), between, accountId, session.value, verified.value); }
      identity := if ok then Some(verified.value.minecraft) else None;
    }

    method LogOut(accountId: string, providerAgrees: bool) returns (ok: bool)
      modifies this, accounts, clock
      ensures if providerAgrees then Applied(Now(), clock.left, ok) == Apply(old(Now()), Logout(accountId, old(clock.left)))
              else !ok && Now() == old(Now()) && clock.left == old(clock.left)
    {
      if accountId !in sessions || !providerAgrees { return false; }
      sessions := sessions - {accountId};
      ok := DeleteSecrets(accountId, NAMES);
      if !ok { return; }
      ok := SaveSessions();
    }

    /** Restored accounts replace those of the same id and leave the others; a failure changes nothing. */
    method LoadSessions() returns (ok: bool)
      modifies this`sessions
      ensures ok == Reload(Now()).Some?
      ensures sessions == if ok then old(sessions) + Reload(Now()).value else old(sessions)
    {
      var document := accounts.destination;
      if document.None? { return true; }
      if document.value.formatVersion != ACCOUNT_FORMAT_VERSION { return false; }
      var accounts := document.value.accounts;
      var restored: map<string, AuthSession> := map[];
      for i := 0 to |accounts|
        invariant RestoreAll(vault, accounts[..i]) == Some(restored)
        invariant sessions == old(sessions)
      {
        assert accounts[..i + 1][..i] == accounts[..i];
        var one := RestoreOne(vault, accounts[i]);
        if one.None? {
          AllOrNothing(vault, accounts);
          return false;
        }
        restored := restored[accounts[i].accountId := one.value];
      }
      assert accounts[..|accounts|] == accounts;
      sessions := sessions + restored;
      ok := true;
    }
  }
}
