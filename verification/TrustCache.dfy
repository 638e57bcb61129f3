/**
 * The cache of the server-signed list of trusted devices, its binding to the account logged in, and Lookup. The file
 * may be replaced by anything at any time. Hex, base64, JSON and Ed25519 are parameters, gathered in a Codec.
 */
module TrustCache {
  import opened Bytes

  datatype Device = Device(fingerprint: string, name: string, mode: string)

  datatype Payload = Payload(account: string, expires: int, devices: seq<Device>)

  datatype SignedList = SignedList(payload: string, signature: string)

  datatype TrustFile = TrustFile(key: string, list: SignedList)

  datatype Codec = Codec(
    normal: string -> string,                 // lower case, trimmed
    accepted: set<string>,                    // the normal forms of the built-in keys and of those in the environment
    hex: string -> Option<Bytes>,
    base64: string -> Option<Bytes>,
    verify: (Bytes, Bytes, Bytes) -> bool,    // key, message, signature
    parse: Bytes -> Option<Payload>)

  const KEY_BYTES: nat := 32

  datatype Why = KeyNotPinned | BadKey | BadPayload | BadSignature | NotSigned | NotParsed | Expired | KeyChanged
    | IoError | OtherAccount

  datatype Checked = Good(payload: Payload) | Bad(why: Why)

  predicate KeyAllowed(k: Codec, key: string) {
    k.normal(key) != "" && k.normal(key) in k.accepted
  }

  function VerifyTrustList(k: Codec, list: SignedList, key: string, now: int): Checked {
    match (k.hex(key), k.base64(list.payload), k.base64(list.signature))
    case (None, _, _) => Bad(BadKey)
    case (Some(pub), raw, sig) =>
      if |pub| != KEY_BYTES then Bad(BadKey)
      else if raw.None? then Bad(BadPayload)
      else if sig.None? then Bad(BadSignature)
      else if !k.verify(pub, raw.value, sig.value) then Bad(NotSigned)
      else if k.parse(raw.value).None? then Bad(NotParsed)
      else if k.parse(raw.value).value.expires <= now then Bad(Expired)
      else Good(k.parse(raw.value).value)
  }

  /** The file, and the account of the saved login: None if there is no login, "" if it does not say. */
  datatype State = State(file: Option<TrustFile>, login: Option<string>)

  function Saved(k: Codec, st: State, list: SignedList, key: string, now: int, writes: bool): (State, Option<Why>) {
    if !KeyAllowed(k, key) then (st, Some(KeyNotPinned))
    else match VerifyTrustList(k, list, key, now)
      case Bad(why) => (st, Some(why))
      case Good(_) =>
        if st.file.Some? && st.file.value.key != "" && st.file.value.key != key then (st, Some(KeyChanged))
        else if !writes then (st, Some(IoError))
        else (st.(file := Some(TrustFile(key, list))), None)
  }

  /** SaveTrustList reads the clock twice. */
  function Fetched(k: Codec, st: State, list: SignedList, key: string, now: int, later: int,
                   writes: bool, binds: bool, removes: bool): (State, Option<Why>)
  {
    var (st', err) := Saved(k, st, list, key, now, writes);
    if err.Some? then (st', err)
    else match VerifyTrustList(k, list, key, later)
      case Bad(why) => (st', Some(why))
      case Good(payload) =>
        if st.login.None? || st.login.value == payload.account then (st', None)
        else if st.login.value == "" then
          if binds then (st'.(login := Some(payload.account)), None) else (st', Some(IoError))
        else (if removes then st'.(file := None) else st', Some(OtherAccount))
  }

  function CachedDevices(k: Codec, st: State, now: int): seq<Device> {
    if st.file.None? || !KeyAllowed(k, st.file.value.key) then []
    else match VerifyTrustList(k, st.file.value.list, st.file.value.key, now)
      case Bad(_) => []
      case Good(p) =>
        if st.login.None? || st.login.value == "" || p.account != st.login.value then [] else p.devices
  }

  // ---- the code ----

  class Store {
    var file: Option<TrustFile>
    var login: Option<string>

    constructor (login: Option<string>)
      ensures Current() == State(None, login)
    {
      this.file := None;
      this.login := login;
    }

    function Current(): State
      reads this
    {
      State(file, login)
    }

    method SaveSignedTrust(k: Codec, list: SignedList, key: string, now: int, writes: bool) returns (err: Option<Why>)
      modifies this`file
      ensures (Current(), err) == Saved(k, old(Current()), list, key, now, writes)
    {
      if !KeyAllowed(k, key) { return Some(KeyNotPinned); }
      var checked := VerifyTrustList(k, list, key, now);
      if checked.Bad? { return Some(checked.why); }
      if file.Some? && file.value.key != "" && file.value.key != key { return Some(KeyChanged); }
      if !writes { return Some(IoError); }
      file := Some(TrustFile(key, list));
      return None;
    }

    method ResetTrust(removes: bool)
      modifies this`file
      ensures file == if removes then None else old(file)
    {
      if removes { file := None; }
    }

    method SaveTrustList(k: Codec, list: SignedList, key: string, now: int, later: int,
                         writes: bool, binds: bool, removes: bool)
      returns (err: Option<Why>)
      modifies this
      ensures (Current(), err) == Fetched(k, old(Current()), list, key, now, later, writes, binds, removes)
    {
      hide VerifyTrustList, KeyAllowed;
      err := SaveSignedTrust(k, list, key, now, writes);
      if err.Some? { return; }
      var checked := VerifyTrustList(k, list, key, later);
      if checked.Bad? { return Some(checked.why); }
      if login.None? || login.value == checked.payload.account { return None; }
      if login.value == "" {
        if !binds { return Some(IoError); }
        login := Some(checked.payload.account);
        return None;
      }
      ResetTrust(removes);
      return Some(OtherAccount);
    }

    method Lookup(k: Codec, fingerprint: string, now: int) returns (found: Option<Device>)
      ensures found.Some? ==>
        && fingerprint != "" && found.value.fingerprint == fingerprint
        && exists i :: 0 <= i < |CachedDevices(k, Current(), now)| && CachedDevices(k, Current(), now)[i] == found.value
             && forall j :: 0 <= j < i ==> CachedDevices(k, Current(), now)[j].fingerprint != fingerprint
      ensures found.None? ==>
        fingerprint == "" || forall d :: d in CachedDevices(k, Current(), now) ==> d.fingerprint != fingerprint
    {
      if fingerprint == "" { return None; }
      var devices := CachedDevices(k, Current(), now);
      hide CachedDevices;
      for i := 0 to |devices|
        invariant forall j :: 0 <= j < i ==> devices[j].fingerprint != fingerprint
      {
        if devices[i].fingerprint == fingerprint { return Some(devices[i]); }
      }
      return None;
    }
  }

  // ---- runs ----

  datatype Event =
    | Save(list: SignedList, key: string, now: int, writes: bool)
    | Fetch(list: SignedList, key: string, now: int, later: int, writes: bool, binds: bool, removes: bool)
    | Reset(removes: bool)
    | Login(account: Option<string>)         // a login, or a logout
    | Replace(file: Option<TrustFile>)       // anything writes anything to the cache file

  function Step(k: Codec, st: State, e: Event): State {
    match e
    case Save(list, key, now, writes) => Saved(k, st, list, key, now, writes).0
    case Fetch(list, key, now, later, writes, binds, removes) =>
      Fetched(k, st, list, key, now, later, writes, binds, removes).0
    case Reset(removes) => if removes then st.(file := None) else st
    case Login(account) => st.(login := account)
    case Replace(file) => st.(file := file)
  }

  function Run(k: Codec, st: State, events: seq<Event>): State
    decreases |events|
  {
    if events == [] then st else Run(k, Step(k, st, events[0]), events[1..])
  }

  /** The lookups that succeed. */
  predicate Trusted(k: Codec, st: State, fingerprint: string, now: int) {
    fingerprint != "" && exists d :: d in CachedDevices(k, st, now) && d.fingerprint == fingerprint
  }

  /** What the server has signed under a key: `issued` maps its hex form to the signed payloads, as bytes. */
  ghost predicate ServerSigned(k: Codec, issued: set<Bytes>) {
    forall key, m, sig ::
      KeyAllowed(k, key) && k.hex(key).Some? && k.verify(k.hex(key).value, m, sig) ==> m in issued
  }

  /** The server has granted trust to a device, on an account, up to some time. */
  ghost predicate Granted(k: Codec, issued: set<Bytes>, account: string, fingerprint: string, now: int) {
    exists m :: m in issued && k.parse(m).Some? && Grants(k.parse(m).value, account, fingerprint, now)
  }

  predicate Grants(p: Payload, account: string, fingerprint: string, now: int) {
    p.account == account && now < p.expires && exists d :: d in p.devices && d.fingerprint == fingerprint
  }

  lemma TrustedWasGranted(k: Codec, st: State, issued: set<Bytes>, fingerprint: string, now: int)
    requires ServerSigned(k, issued) && Trusted(k, st, fingerprint, now)
    ensures st.login.Some? && st.login.value != "" && Granted(k, issued, st.login.value, fingerprint, now)
  {
    var f := st.file.value;
    var m, sig := k.base64(f.list.payload).value, k.base64(f.list.signature).value;
    assert k.verify(k.hex(f.key).value, m, sig);
    var d :| d in CachedDevices(k, st, now) && d.fingerprint == fingerprint;
    assert d in k.parse(m).value.devices;
    assert Grants(k.parse(m).value, st.login.value, fingerprint, now);
  }

  // ---- the binding to the account ----

  predicate NoLogin(events: seq<Event>) { forall e :: e in events ==> !e.Login? }

  lemma StepKeepsBinding(k: Codec, st: State, e: Event)
    requires !e.Login? && st.login.Some? && st.login.value != ""
    ensures Step(k, st, e).login == st.login
  {
    hide VerifyTrustList, KeyAllowed;
  }

  /** A bound account stays bound until the user logs in or out. */
  lemma {:induction false} BindingStays(k: Codec, st: State, events: seq<Event>)
    requires NoLogin(events) && st.login.Some? && st.login.value != ""
    ensures Run(k, st, events).login == st.login
    decreases |events|
  {
    if events != [] {
      hide Step;
      assert events[0] in events;
      StepKeepsBinding(k, st, events[0]);
      BindingStays(k, Step(k, st, events[0]), events[1..]);
    }
  }

  lemma {:induction false} LoggedOutStays(k: Codec, st: State, events: seq<Event>)
    requires NoLogin(events) && st.login.None?
    ensures Run(k, st, events).login.None?
    decreases |events|
  {
    if events != [] {
      assert events[0] in events;
      hide VerifyTrustList, KeyAllowed;
      LoggedOutStays(k, Step(k, st, events[0]), events[1..]);
    }
  }

  /** A save never replaces one pinned key by another. */
  lemma PinnedKeyStays(k: Codec, st: State, e: Event)
    requires (e.Save? || e.Fetch?) && st.file.Some? && st.file.value.key != ""
    ensures var st' := Step(k, st, e); st'.file.None? || st'.file.value.key == st.file.value.key
  {
    hide VerifyTrustList, KeyAllowed;
  }

  // ---- what replacing the file can do ----

  /** The accounts a run without logins can end on: the bound one, or any that a list binds first. */
  ghost predicate CanServe(login: Option<string>, account: string) {
    account != "" && login.Some? && (login.value == account || login.value == "")
  }

  /**
   * Over every run, logins included and the cache file replaced at will, a device is trusted only if the server signed
   * an unexpired list that names it for the account logged in then. If nobody logged in on the way, that is the account
   * bound all along, or one that was bound by a list.
   */
  lemma OnlyTheServerGrants(k: Codec, st: State, events: seq<Event>, issued: set<Bytes>, fingerprint: string, now: int)
    requires ServerSigned(k, issued) && Trusted(k, Run(k, st, events), fingerprint, now)
    ensures var login := Run(k, st, events).login;
      && login.Some? && login.value != "" && Granted(k, issued, login.value, fingerprint, now)
      && (NoLogin(events) ==> CanServe(st.login, login.value))
  {
    var end := Run(k, st, events);
    TrustedWasGranted(k, end, issued, fingerprint, now);
    if NoLogin(events) {
      if st.login.None? {
        LoggedOutStays(k, st, events);
      } else if st.login.value != "" {
        BindingStays(k, st, events);
      }
    }
    hide Run, Trusted, Granted, NoLogin;
  }

  /** Each signed payload can be put in a cache file that passes. */
  ghost predicate Publishable(k: Codec, issued: set<Bytes>) {
    forall m :: m in issued ==> exists f: TrustFile :: Passes(k, f, m)
  }

  predicate Passes(k: Codec, f: TrustFile, m: Bytes) {
    && k.normal(f.key) != "" && k.normal(f.key) in k.accepted
    && k.hex(f.key).Some? && |k.hex(f.key).value| == 32
    && k.base64(f.list.payload) == Some(m) && k.base64(f.list.signature).Some?
    && k.verify(k.hex(f.key).value, m, k.base64(f.list.signature).value)
  }

  /** A file that passes with m serves what m grants to the account logged in. */
  lemma PassesServes(k: Codec, f: TrustFile, m: Bytes, account: string, fingerprint: string, now: int)
    requires Passes(k, f, m) && k.parse(m).Some? && Grants(k.parse(m).value, account, fingerprint, now)
    requires account != "" && fingerprint != ""
    ensures VerifyTrustList(k, f.list, f.key, now) == Good(k.parse(m).value)
    ensures Trusted(k, State(Some(f), Some(account)), fingerprint, now)
  {
    var d :| d in k.parse(m).value.devices && d.fingerprint == fingerprint;
    assert d in CachedDevices(k, State(Some(f), Some(account)), now);
  }

  /** A run that brings it about: replace the file, and if no account is bound yet, fetch to bind one. */
  function Reaching(login: string, f: TrustFile, now: int): seq<Event> {
    if login != "" then [Replace(Some(f))]
    else [Replace(None), Fetch(f.list, f.key, now, now, true, true, true)]
  }

  lemma ReachingReaches(k: Codec, st: State, f: TrustFile, m: Bytes, account: string, fingerprint: string, now: int)
    requires Passes(k, f, m) && k.parse(m).Some? && Grants(k.parse(m).value, account, fingerprint, now)
    requires CanServe(st.login, account) && fingerprint != ""
    ensures Run(k, st, Reaching(st.login.value, f, now)) == State(Some(f), Some(account))
  {
    PassesServes(k, f, m, account, fingerprint, now);
    var events := Reaching(st.login.value, f, now);
    if st.login.value == "" {
      assert events[1..] == [events[1]] && [events[1]][1..] == [];
      assert KeyAllowed(k, f.key);
      hide VerifyTrustList, KeyAllowed;
      assert Step(k, st, events[0]) == State(None, st.login);
      var empty := State(None, st.login);
      assert Step(k, empty, events[1]) == State(Some(f), Some(account));
      hide Step;
      assert Run(k, empty, [events[1]]) == Step(k, empty, events[1]);
    } else {
      assert events[1..] == [];
    }
  }

  /**
   * And that is exactly how far such runs reach: to every unexpired list the server has signed for an account that is
   * bound or can be, older lists included. A revoked device stays within reach until its last list expires.
   */
  lemma ReachOfReplacement(k: Codec, st: State, issued: set<Bytes>, fingerprint: string, now: int)
    requires ServerSigned(k, issued) && Publishable(k, issued) && fingerprint != ""
    ensures (exists events :: NoLogin(events) && Trusted(k, Run(k, st, events), fingerprint, now))
       <==> exists account :: CanServe(st.login, account) && Granted(k, issued, account, fingerprint, now)
  {
    if events :| NoLogin(events) && Trusted(k, Run(k, st, events), fingerprint, now) {
      OnlyTheServerGrants(k, st, events, issued, fingerprint, now);
    }
    if account :| CanServe(st.login, account) && Granted(k, issued, account, fingerprint, now) {
      var m :| m in issued && k.parse(m).Some? && Grants(k.parse(m).value, account, fingerprint, now);
      var f: TrustFile :| Passes(k, f, m);
      hide Run, Trusted;
      ReachingReaches(k, st, f, m, account, fingerprint, now);
      PassesServes(k, f, m, account, fingerprint, now);
      assert NoLogin(Reaching(st.login.value, f, now));
    }
  }

  // ---- what saving a list does, and for how long ----

  /** The file an event writes, if it writes one. */
  function Written(k: Codec, st: State, e: Event): Option<TrustFile> {
    match e
    case Save(list, key, now, writes) =>
      if Saved(k, st, list, key, now, writes).1.None? then Some(TrustFile(key, list)) else None
    case Fetch(list, key, now, _, writes, _, _) =>
      if Saved(k, st, list, key, now, writes).1.None? then Some(TrustFile(key, list)) else None
    case _ => None
  }

  /**
   * A list for another account than the bound one is refused. If it did not get as far as the file, nothing has
   * changed; if it did, the list that was there is gone, and nothing at all is trusted any more, even if the file
   * stays.
   */
  lemma OtherAccountRefused(k: Codec, st: State, e: Event)
    requires e.Fetch? && st.login.Some? && st.login.value != ""
    requires VerifyTrustList(k, e.list, e.key, e.later).Good?
    requires VerifyTrustList(k, e.list, e.key, e.later).payload.account != st.login.value
    ensures Fetched(k, st, e.list, e.key, e.now, e.later, e.writes, e.binds, e.removes).1.Some?
    ensures if Written(k, st, e).None? then Step(k, st, e) == st
            else forall fingerprint, at :: !Trusted(k, Step(k, st, e), fingerprint, at)
  {
    var st' := Step(k, st, e);
    if Written(k, st, e).Some? {
      assert st'.login == st.login && (st'.file.None? || st'.file == Written(k, st, e)) by {
        hide VerifyTrustList, KeyAllowed;
      }
      hide Step, Written, Fetched;
      forall at ensures CachedDevices(k, st', at) == [] {
        if st'.file.Some? { PayloadStays(k, e.list, e.key, e.later, at); }
        hide VerifyTrustList, KeyAllowed;
      }
    }
    hide VerifyTrustList, KeyAllowed;
  }

  /** Time changes whether a list has expired, and nothing else. */
  lemma PayloadStays(k: Codec, list: SignedList, key: string, since: int, at: int)
    requires VerifyTrustList(k, list, key, since).Good?
    ensures var payload := VerifyTrustList(k, list, key, since).payload;
      VerifyTrustList(k, list, key, at) == if at < payload.expires then Good(payload) else Bad(Expired)
  {
  }

  /** An event that leaves the file f alone, or writes it again. */
  predicate Leaves(k: Codec, f: TrustFile, st: State, e: Event) {
    && !e.Replace? && !e.Login? && !(e.Reset? && e.removes)
    && (Written(k, st, e).Some? ==> Written(k, st, e) == Some(f))
  }

  predicate Quiet(k: Codec, f: TrustFile, st: State, events: seq<Event>)
    decreases |events|
  {
    events != [] ==> Leaves(k, f, st, events[0]) && Quiet(k, f, Step(k, st, events[0]), events[1..])
  }

  lemma QuietStep(k: Codec, f: TrustFile, st: State, e: Event, since: int)
    requires st.file == Some(f) && Leaves(k, f, st, e) && VerifyTrustList(k, f.list, f.key, since).Good?
    requires st.login == Some(VerifyTrustList(k, f.list, f.key, since).payload.account)
    ensures Step(k, st, e) == st
  {
    if e.Fetch? && Written(k, st, e).Some? { PayloadStays(k, f.list, f.key, since, e.later); }
    hide VerifyTrustList, KeyAllowed;
  }

  lemma {:induction false} QuietRun(k: Codec, f: TrustFile, st: State, events: seq<Event>, since: int)
    requires st.file == Some(f) && Quiet(k, f, st, events) && VerifyTrustList(k, f.list, f.key, since).Good?
    requires st.login == Some(VerifyTrustList(k, f.list, f.key, since).payload.account)
    ensures Run(k, st, events) == st
    decreases |events|
  {
    hide VerifyTrustList, Leaves, Step;
    if events != [] {
      QuietStep(k, f, st, events[0], since);
      QuietRun(k, f, st, events[1..], since);
    }
  }

  /**
   * What a successful SaveTrustList is for. However many saves and fetches fail after it, or bring the same list again,
   * at whatever times: until a login, a reset, a replaced file or another list that gets as far as the file, exactly
   * the devices of the list are trusted until it expires, given a login and an account in the list.
   */
  lemma {:induction false} SavedListIsInForce(k: Codec, st: State, e: Event, events: seq<Event>,
                                              fingerprint: string, at: int)
    requires e.Fetch? && st.login.Some?
    requires Fetched(k, st, e.list, e.key, e.now, e.later, e.writes, e.binds, e.removes).1 == None
    requires Quiet(k, TrustFile(e.key, e.list), Step(k, st, e), events)
    ensures VerifyTrustList(k, e.list, e.key, e.later).Good?
    ensures var payload := VerifyTrustList(k, e.list, e.key, e.later).payload;
      Trusted(k, Run(k, Step(k, st, e), events), fingerprint, at) <==>
        fingerprint != "" && payload.account != "" && Grants(payload, payload.account, fingerprint, at)
  {
    var f, st' := TrustFile(e.key, e.list), Step(k, st, e);
    var payload := VerifyTrustList(k, e.list, e.key, e.later).payload;
    assert st'.file == Some(f) && st'.login == Some(payload.account) && KeyAllowed(k, e.key) by {
      hide VerifyTrustList, KeyAllowed;
    }
    hide Fetched, Step, Run, Quiet;
    QuietRun(k, f, st', events, e.later);
    PayloadStays(k, e.list, e.key, e.later, at);
    hide VerifyTrustList, KeyAllowed;
  }

  /** The last file that was written, `last` if none was. */
  function LastWritten(k: Codec, last: Option<TrustFile>, st: State, events: seq<Event>): Option<TrustFile>
    decreases |events|
  {
    if events == [] then last
    else
      var w := Written(k, st, events[0]);
      LastWritten(k, if w.Some? then w else last, Step(k, st, events[0]), events[1..])
  }

  predicate NoReplace(events: seq<Event>) { forall e :: e in events ==> !e.Replace? }

  lemma {:induction false} FileIsLastWritten(k: Codec, last: Option<TrustFile>, st: State, events: seq<Event>)
    requires NoReplace(events) && (st.file.None? || st.file == last)
    ensures var end := Run(k, st, events); end.file.None? || end.file == LastWritten(k, last, st, events)
    decreases |events|
  {
    if events != [] {
      var e := events[0];
      assert e in events;
      var w := Written(k, st, e);
      assert Step(k, st, e).file.None? || Step(k, st, e).file == if w.Some? then w else last by {
        hide VerifyTrustList, KeyAllowed;
      }
      hide Step, Written;
      FileIsLastWritten(k, if w.Some? then w else last, Step(k, st, e), events[1..]);
    }
  }

  /**
   * As long as nobody replaces the file, older lists do not count: whatever is trusted at the end of a run was granted
   * by the last list that was saved, to the account logged in then.
   */
  lemma OnlyTheLastListCounts(k: Codec, login: Option<string>, events: seq<Event>, fingerprint: string, at: int)
    requires NoReplace(events)
    ensures var end := Run(k, State(None, login), events);
      var last := LastWritten(k, None, State(None, login), events);
      Trusted(k, end, fingerprint, at) ==>
        && last.Some? && VerifyTrustList(k, last.value.list, last.value.key, at).Good?
        && end.login.Some?
        && Grants(VerifyTrustList(k, last.value.list, last.value.key, at).payload, end.login.value, fingerprint, at)
  {
    FileIsLastWritten(k, None, State(None, login), events);
    hide Run, LastWritten;
  }

  // ---- when a save works ----

  /** The list in f passes with the payload m, which parses and has not expired. */
  predicate Serves(k: Codec, f: TrustFile, m: Bytes, now: int) {
    Passes(k, f, m) && k.parse(m).Some? && now < k.parse(m).value.expires
  }

  /** No other key is pinned. */
  predicate Unpinned(st: State, key: string) {
    st.file.None? || st.file.value.key == "" || st.file.value.key == key
  }

  lemma VerifiesExactly(k: Codec, f: TrustFile, now: int)
    ensures KeyAllowed(k, f.key) && VerifyTrustList(k, f.list, f.key, now).Good?
       <==> k.base64(f.list.payload).Some? && Serves(k, f, k.base64(f.list.payload).value, now)
    ensures VerifyTrustList(k, f.list, f.key, now).Good? ==>
      VerifyTrustList(k, f.list, f.key, now).payload == k.parse(k.base64(f.list.payload).value).value
  {
  }

  /**
   * SaveSignedTrust succeeds exactly when the key is accepted, the list passes and has not expired, no other key is
   * pinned (the same one may be) and writing works; then it writes just this, and otherwise nothing changes.
   */
  lemma SavesExactly(k: Codec, st: State, f: TrustFile, now: int, writes: bool)
    ensures var (st', err) := Saved(k, st, f.list, f.key, now, writes);
      && (err.None? <==>
            && k.base64(f.list.payload).Some? && Serves(k, f, k.base64(f.list.payload).value, now)
            && Unpinned(st, f.key) && writes)
      && st' == (if err.None? then st.(file := Some(f)) else st)
  {
    VerifiesExactly(k, f, now);
    hide VerifyTrustList, KeyAllowed, Serves;
  }

  /** The devices Lookup looks among: those of a list that passes, in date, for the account logged in, and else none. */
  lemma CachedExactly(k: Codec, st: State, now: int)
    ensures CachedDevices(k, st, now) ==
      if st.file.Some? && st.login.Some? && st.login.value != "" && k.base64(st.file.value.list.payload).Some?
         && Serves(k, st.file.value, k.base64(st.file.value.list.payload).value, now)
         && k.parse(k.base64(st.file.value.list.payload).value).value.account == st.login.value
      then k.parse(k.base64(st.file.value.list.payload).value).value.devices else []
  {
    if st.file.Some? { VerifiesExactly(k, st.file.value, now); }
    hide VerifyTrustList, KeyAllowed, Serves;
  }

  /** SaveTrustList succeeds exactly when that does and the list is for the account logged in, or one it can bind. */
  lemma FetchesExactly(k: Codec, st: State, f: TrustFile, now: int, later: int, writes: bool, binds: bool,
                       removes: bool)
    ensures var (st', err) := Fetched(k, st, f.list, f.key, now, later, writes, binds, removes);
      err.None? <==>
        && writes
        && k.base64(f.list.payload).Some?
        && var m := k.base64(f.list.payload).value;
        && Serves(k, f, m, now) && later < k.parse(m).value.expires && Unpinned(st, f.key)
        && (st.login.None? || st.login.value == k.parse(m).value.account || (st.login.value == "" && binds))
  {
    SavesExactly(k, st, f, now, writes);
    VerifiesExactly(k, f, later);
    if k.base64(f.list.payload).Some? && Serves(k, f, k.base64(f.list.payload).value, now) {
      var m := k.base64(f.list.payload).value;
      assert KeyAllowed(k, f.key);
      assert VerifyTrustList(k, f.list, f.key, later).Good? <==> later < k.parse(m).value.expires;
    }
    hide VerifyTrustList, Saved, Passes, KeyAllowed;
  }

  /** What SaveTrustList leaves: nothing new after a refused save, no list at all after one for another account. */
  lemma FetchLeavesExactly(k: Codec, st: State, f: TrustFile, now: int, later: int, writes: bool, binds: bool,
                           removes: bool)
    ensures var (st', err) := Fetched(k, st, f.list, f.key, now, later, writes, binds, removes);
      if writes && k.base64(f.list.payload).Some? && Serves(k, f, k.base64(f.list.payload).value, now)
         && Unpinned(st, f.key)
      then
        var p, saved := k.parse(k.base64(f.list.payload).value).value, st.(file := Some(f));
        if later >= p.expires then (st', err) == (saved, Some(Expired))
        else if st.login.None? || st.login.value == p.account then (st', err) == (saved, None)
        else if st.login.value != "" then
          (st', err) == (if removes then st.(file := None) else saved, Some(OtherAccount))
        else (st', err) == if binds then (saved.(login := Some(p.account)), None) else (saved, Some(IoError))
      else st' == st && err.Some?
  {
    SavesExactly(k, st, f, now, writes);
    if k.base64(f.list.payload).Some? && Serves(k, f, k.base64(f.list.payload).value, now) {
      LaterExactly(k, f, k.base64(f.list.payload).value, later);
    }
    hide VerifyTrustList, Saved, Serves, Unpinned;
  }

  lemma LaterExactly(k: Codec, f: TrustFile, m: Bytes, later: int)
    requires Passes(k, f, m) && k.parse(m).Some?
    ensures VerifyTrustList(k, f.list, f.key, later)
         == if later >= k.parse(m).value.expires then Bad(Expired) else Good(k.parse(m).value)
  {
  }

  /**
   * Renewal. Whatever is in the cache, unless another key is pinned: a list that passes, has not expired at either
   * reading of the clock and names the account logged in is saved, and from then on exactly its devices are trusted,
   * over any quiet run; one that only an older list named is not.
   */
  lemma RenewalTakesEffect(k: Codec, st: State, f: TrustFile, m: Bytes, now: int, later: int, binds: bool,
                           removes: bool, events: seq<Event>, fingerprint: string, at: int)
    requires Unpinned(st, f.key) && Serves(k, f, m, now) && Serves(k, f, m, later) && st.login.Some?
    requires st.login.value == k.parse(m).value.account || (st.login.value == "" && binds)
    requires var e := Fetch(f.list, f.key, now, later, true, binds, removes); Quiet(k, f, Step(k, st, e), events)
    ensures var e := Fetch(f.list, f.key, now, later, true, binds, removes);
      var p := k.parse(m).value;
      && Fetched(k, st, f.list, f.key, now, later, true, binds, removes).1.None?
      && (Trusted(k, Run(k, st, [e] + events), fingerprint, at) <==>
            fingerprint != "" && p.account != "" && at < p.expires
            && exists d :: d in p.devices && d.fingerprint == fingerprint)
  {
    var e := Fetch(f.list, f.key, now, later, true, binds, removes);
    FetchesExactly(k, st, f, now, later, true, binds, removes);
    VerifiesExactly(k, f, later);
    assert ([e] + events)[1..] == events;
    assert Run(k, st, [e] + events) == Run(k, Step(k, st, e), events);
    hide Fetched, Step, Run, Quiet, Trusted;
    SavedListIsInForce(k, st, e, events, fingerprint, at);
  }

  /** In particular under the key that is pinned: an old list, any quiet time after it, and then a new one for good. */
  lemma SecondListReplacesFirst(k: Codec, st: State, first: Event, between: seq<Event>, f: TrustFile, m: Bytes,
                                now: int, later: int, events: seq<Event>, fingerprint: string, at: int)
    requires first.Fetch? && st.login.Some? && first.key == f.key
    requires Fetched(k, st, first.list, first.key, first.now, first.later, first.writes, first.binds, first.removes).1
          == None
    requires Quiet(k, TrustFile(first.key, first.list), Step(k, st, first), between)
    requires Serves(k, f, m, now) && Serves(k, f, m, later)
    requires VerifyTrustList(k, first.list, first.key, first.later).Good?
    requires k.parse(m).value.account == VerifyTrustList(k, first.list, first.key, first.later).payload.account
    requires var e := Fetch(f.list, f.key, now, later, true, true, true);
      Quiet(k, f, Step(k, Run(k, Step(k, st, first), between), e), events)
    ensures var e := Fetch(f.list, f.key, now, later, true, true, true);
      var p := k.parse(m).value;
      Trusted(k, Run(k, Run(k, Step(k, st, first), between), [e] + events), fingerprint, at) <==>
        fingerprint != "" && p.account != "" && at < p.expires
        && exists d :: d in p.devices && d.fingerprint == fingerprint
  {
    var f0, st' := TrustFile(first.key, first.list), Step(k, st, first);
    var payload := VerifyTrustList(k, first.list, first.key, first.later).payload;
    assert st'.file == Some(f0) && st'.login == Some(payload.account) by { hide VerifyTrustList, KeyAllowed; }
    hide Fetched, Step, Run, Quiet, Trusted, VerifyTrustList, Serves;
    QuietRun(k, f0, st', between, first.later);
    RenewalTakesEffect(k, st', f, m, now, later, true, true, events, fingerprint, at);
  }
}
