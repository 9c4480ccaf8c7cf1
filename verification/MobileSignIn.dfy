/**
 * Mobile sign-in: the one-time store, the three endpoints that use it, and the step system of any number of
 * devices, callbacks and exchanges over one store.
 */
module MobileSignIn {
  import opened Prelude
  import opened Tables
  import opened SignIn
  import opened Pkce
  import Base64Url

  const MOBILE_STATE_TTL_S := 600
  const MOBILE_CODE_TTL_S := 60

  /** A stored text: a challenge, or the JSON of a token and the challenge it is bound to. */
  datatype Value = Challenge(text: string) | Handoff(token: Jwt, challenge: string)

  datatype Entry = Entry(value: Value, expiresAt: Time)

  type Memory = map<string, Entry>

  function StateKey(state: string): string { "mstate:" + state }

  function CodeKey(code: string): string { "mcode:" + code }

  lemma KeysDiffer(a: string, b: string)
    ensures StateKey(a) != CodeKey(b)
    ensures StateKey(a) == StateKey(b) <==> a == b
    ensures CodeKey(a) == CodeKey(b) <==> a == b
  {
    assert StateKey(a)[1] == 's' && CodeKey(b)[1] == 'c';
    assert StateKey(a)[7..] == a && StateKey(b)[7..] == b && CodeKey(a)[6..] == a && CodeKey(b)[6..] == b;
  }

  function Stored(memory: Memory, now: Time, key: string, value: Value, ttlSeconds: nat): Memory {
    memory[key := Entry(value, now + ttlSeconds * 1000)]
  }

  function Fetched(memory: Memory, now: Time, key: string): Option<Value> {
    if key in memory && memory[key].expiresAt >= now then Some(memory[key].value) else None
  }

  class OneTimeStore {
    var memory: Memory

    method Put(now: Time, key: string, value: Value, ttlSeconds: nat)
      modifies this
      ensures memory == old(memory)[key := Entry(value, now + ttlSeconds * 1000)]
    {
      memory := memory[key := Entry(value, now + ttlSeconds * 1000)];
    }

    /** Removes the entry whether or not it is still valid. */
    method Take(now: Time, key: string) returns (value: Option<Value>)
      modifies this
      ensures memory == old(memory) - {key}
      ensures value == if key in old(memory) && old(memory)[key].expiresAt >= now then Some(old(memory)[key].value) else None
    {
      var entry := if key in memory then Some(memory[key]) else None;
      memory := memory - {key};
      if entry.None? || entry.value.expiresAt < now {
        return None;
      }
      return Some(entry.value.value);
    }
  }

  // ---------------------------------------------------------------- the endpoints

  datatype CallbackReply = BadCallback | LoginFailed | RedirectedToApp(handoff: string) | BrowserSession(token: Jwt)

  /** The challenge a callback finds under its state, which the take uses up. */
  function ChallengeFor(memory: Memory, now: Time, code: string, state: string): Option<string> {
    if code == "" || state == "" then None
    else
      match Fetched(memory, now, StateKey(state))
      case Some(Challenge(text)) => if text == "" then None else Some(text)
      case _ => None
  }

  function AfterTake(memory: Memory, code: string, state: string): Memory {
    if code == "" || state == "" then memory else memory - {StateKey(state)}
  }

  /** The token an exchange releases. */
  function Redeemed(sha: Sha256Fn, memory: Memory, now: Time, code: string, verifier: string): Option<Jwt> {
    if code == "" then None
    else
      match Fetched(memory, now, CodeKey(code))
      case Some(Handoff(token, challenge)) => if PkceMatches(sha, verifier, challenge) then Some(token) else None
      case _ => None
  }

  function AfterExchange(memory: Memory, code: string): Memory {
    if code == "" then memory else memory - {CodeKey(code)}
  }

  /** A callback is the app's when its state is stored and live with a challenge. */
  lemma ChallengeForIff(memory: Memory, now: Time, code: string, state: string, challenge: string)
    ensures ChallengeFor(memory, now, code, state) == Some(challenge) <==>
              && code != "" && state != "" && "mstate:" + state in memory && now <= memory["mstate:" + state].expiresAt
              && memory["mstate:" + state].value == Challenge(challenge) && challenge != ""
  {
  }

  /** The text is 43 to 128 unreserved characters. */
  predicate HasVerifierShape(v: string) {
    43 <= |v| <= 128
    && forall i :: 0 <= i < |v| ==> 'A' <= v[i] <= 'Z' || 'a' <= v[i] <= 'z' || '0' <= v[i] <= '9' || v[i] in {'.', '_', '~', '-'}
  }

  /** The code is stored and live with this token, and the verifier is well shaped and digests to the challenge beside it. */
  predicate Holds(sha: Sha256Fn, memory: Memory, now: Time, code: string, verifier: string, token: Jwt) {
    && code != "" && "mcode:" + code in memory && now <= memory["mcode:" + code].expiresAt
    && memory["mcode:" + code].value == Handoff(token, Base64Url.Encode(sha(verifier)))
    && HasVerifierShape(verifier)
  }

  lemma RedeemedIff(sha: Sha256Fn, memory: Memory, now: Time, code: string, verifier: string, token: Jwt)
    ensures Redeemed(sha, memory, now, code, verifier) == Some(token) <==> Holds(sha, memory, now, code, verifier, token)
  {
    assert IsVerifier(verifier) <==> HasVerifierShape(verifier);
  }

  class AuthController {
    const oneTimeStore: OneTimeStore
    const sha: Sha256Fn

    constructor (oneTimeStore: OneTimeStore, sha: Sha256Fn)
      ensures this.oneTimeStore == oneTimeStore && this.sha == sha
    {
      this.oneTimeStore := oneTimeStore;
      this.sha := sha;
    }

    method WorkosMobileStart(now: Time, codeChallenge: string, state: string) returns (accepted: bool)
      modifies oneTimeStore
      ensures accepted == IsBase64Url43(codeChallenge)
      ensures oneTimeStore.memory ==
              if accepted then old(oneTimeStore.memory)["mstate:" + state := Entry(Challenge(codeChallenge), now + 600_000)]
              else old(oneTimeStore.memory)
    {
      if !IsBase64Url43(codeChallenge) {
        return false;
      }
      oneTimeStore.Put(now, StateKey(state), Challenge(codeChallenge), MOBILE_STATE_TTL_S);
      return true;
    }

    /** `login` is what the identity provider and loginWithWorkOs made of the code, none if either threw. */
    method WorkosCallback(now: Time, code: string, state: string, cookie: Option<string>, login: Option<Jwt>, later: Time, handoff: string)
      returns (reply: CallbackReply)
      modifies oneTimeStore
      ensures var before := old(oneTimeStore.memory);
              var taken := if code == "" || state == "" then before else before - {"mstate:" + state};
              match ChallengeFor(before, now, code, state)
              case Some(challenge) =>
                if login.None? then reply == LoginFailed && oneTimeStore.memory == taken
                else
                  && reply == RedirectedToApp(handoff)
                  && oneTimeStore.memory == taken["mcode:" + handoff := Entry(Handoff(login.value, challenge), later + 60_000)]
              case None =>
                && oneTimeStore.memory == taken
                && (reply.BrowserSession? <==> code != "" && state != "" && cookie == Some(state) && login.Some?)
                && (reply.BrowserSession? ==> Some(reply.token) == login)
                && !reply.RedirectedToApp?
    {
      if code == "" || state == "" {
        return BadCallback;
      }
      var challenge := oneTimeStore.Take(now, StateKey(state));
      if challenge.Some? && challenge.value.Challenge? && challenge.value.text != "" {
        if login.None? {
          return LoginFailed;
        }
        oneTimeStore.Put(later, CodeKey(handoff), Handoff(login.value, challenge.value.text), MOBILE_CODE_TTL_S);
        return RedirectedToApp(handoff);
      }
      if cookie != Some(state) {
        return BadCallback;
      }
      if login.None? {
        return LoginFailed;
      }
      return BrowserSession(login.value);
    }

    method WorkosMobileExchange(now: Time, code: string, codeVerifier: string) returns (token: Option<Jwt>)
      modifies oneTimeStore
      ensures token == Redeemed(sha, old(oneTimeStore.memory), now, code, codeVerifier)
      // in full: a live code, and a well-shaped verifier whose digest is the stored challenge
      ensures forall t :: token == Some(t) <==> Holds(sha, old(oneTimeStore.memory), now, code, codeVerifier, t)
      ensures oneTimeStore.memory == if code == "" then old(oneTimeStore.memory) else old(oneTimeStore.memory) - {"mcode:" + code}
    {
      forall t ensures Redeemed(sha, oneTimeStore.memory, now, code, codeVerifier) == Some(t)
                       <==> Holds(sha, oneTimeStore.memory, now, code, codeVerifier, t) {
        RedeemedIff(sha, oneTimeStore.memory, now, code, codeVerifier, t);
      }
      var stored: Option<Value> := None;
      if code != "" {
        stored := oneTimeStore.Take(now, CodeKey(code));
      }
      if stored.None? || !stored.value.Handoff? {
        return None;
      }
      if !PkceMatches(sha, codeVerifier, stored.value.challenge) {
        return None;
      }
      return Some(stored.value.token);
    }
  }

  // ---------------------------------------------------------------- the step system

  type CallbackId = nat

  /** `used` remembers every key that was ever stored: states and codes are fresh random values. */
  datatype State = State(now: Time, memory: Memory, pending: map<CallbackId, string>, used: set<string>)

  /** A callback takes its state in one step and stores its code in a later one; logging in is in between. */
  datatype Event =
    | Tick(to: Time)
    | Start(challenge: string, state: string)
    | Begin(callback: CallbackId, code: string, state: string)
    | Finish(callback: CallbackId, login: Option<Jwt>, handoff: string)
    | Exchange(code: string, verifier: string)

  predicate Enabled(s: State, e: Event) {
    match e
    case Tick(to) => to >= s.now
    case Start(_, state) => state != "" && StateKey(state) !in s.used
    case Begin(p, _, _) => p !in s.pending
    case Finish(p, _, handoff) => p in s.pending && handoff != "" && CodeKey(handoff) !in s.used
    case Exchange(_, _) => true
  }

  function Next(s: State, e: Event): State
    requires Enabled(s, e)
  {
    match e
    case Tick(to) => s.(now := to)
    case Start(challenge, state) =>
      if !IsBase64Url43(challenge) then s
      else s.(memory := Stored(s.memory, s.now, StateKey(state), Challenge(challenge), MOBILE_STATE_TTL_S),
              used := s.used + {StateKey(state)})
    case Begin(p, code, state) =>
      (match ChallengeFor(s.memory, s.now, code, state)
       case Some(challenge) => s.(memory := AfterTake(s.memory, code, state), pending := s.pending[p := challenge])
       case None => s.(memory := AfterTake(s.memory, code, state)))
    case Finish(p, login, handoff) =>
      if login.None? then s.(pending := s.pending - {p})
      else s.(memory := Stored(s.memory, s.now, CodeKey(handoff), Handoff(login.value, s.pending[p]), MOBILE_CODE_TTL_S),
              pending := s.pending - {p},
              used := s.used + {CodeKey(handoff)})
    case Exchange(code, _) => s.(memory := AfterExchange(s.memory, code))
  }

  datatype Run = Run(sha: Sha256Fn, states: seq<State>, events: seq<Event>)

  ghost predicate IsRun(run: Run) {
    && |run.states| == |run.events| + 1
    && run.states[0].memory == map[] && run.states[0].pending == map[]
    && forall i :: 0 <= i < |run.events| ==>
         Enabled(run.states[i], run.events[i]) && run.states[i + 1] == Next(run.states[i], run.events[i])
  }

  /** The token step k releases, if it is an exchange that succeeds. */
  ghost function Released(run: Run, k: nat): Option<Jwt>
    requires IsRun(run) && k < |run.events|
  {
    match run.events[k]
    case Exchange(code, verifier) => Redeemed(run.sha, run.states[k].memory, run.states[k].now, code, verifier)
    case _ => None
  }

  predicate AsksState(e: Event, state: string) { e.Begin? && e.code != "" && e.state == state }

  predicate AsksCode(e: Event, code: string) { e.Exchange? && e.code == code }

  /** Callback j is the first to present the state that step i handed out, in time. */
  ghost predicate FirstCallback(run: Run, i: nat, j: nat)
    requires IsRun(run)
  {
    && i < j < |run.events|
    && run.events[i].Start?
    && AsksState(run.events[j], run.events[i].state)
    && (forall m :: i < m < j ==> !AsksState(run.events[m], run.events[i].state))
    && run.states[j].now <= run.states[i].now + 600_000
  }

  /** ... and the challenge given at i had the right shape. */
  ghost predicate Answers(run: Run, i: nat, j: nat)
    requires IsRun(run)
  {
    FirstCallback(run, i, j) && IsBase64Url43(run.events[i].challenge)
  }

  /** Step l is where callback j comes back from logging in, with a token. */
  ghost predicate Returns(run: Run, j: nat, l: nat)
    requires IsRun(run)
  {
    && j < l < |run.events|
    && run.events[j].Begin? && run.events[l].Finish? && run.events[l].callback == run.events[j].callback
    && (forall m :: j < m < l ==> !(run.events[m].Finish? && run.events[m].callback == run.events[j].callback))
    && run.events[l].login.Some?
  }

  /** Step k is the first to present the code of step l, in time. */
  ghost predicate Presents(run: Run, l: nat, k: nat)
    requires IsRun(run)
  {
    && l < k < |run.events|
    && run.events[l].Finish?
    && AsksCode(run.events[k], run.events[l].handoff)
    && (forall m :: l < m < k ==> !AsksCode(run.events[m], run.events[l].handoff))
    && run.states[k].now <= run.states[l].now + 60_000
  }

  /** One whole sign-in: started at i, called back from j to l, exchanged at k by someone who knows the verifier. */
  ghost predicate IsSignIn(run: Run, i: nat, j: nat, l: nat, k: nat)
    requires IsRun(run)
  {
    && Answers(run, i, j) && Returns(run, j, l) && Presents(run, l, k)
    && PkceMatches(run.sha, run.events[k].verifier, run.events[i].challenge)
  }

  // ---------------------------------------------------------------- keys are used once

  lemma {:induction false} KeysAreUsed(run: Run, k: nat)
    requires IsRun(run) && k < |run.states|
    ensures run.states[k].memory.Keys <= run.states[k].used
  {
    if k > 0 { KeysAreUsed(run, k - 1); }
  }

  lemma {:induction false} UsedForever(run: Run, i: nat, k: nat)
    requires IsRun(run) && i <= k < |run.states|
    ensures run.states[i].used <= run.states[k].used
  {
    if i < k { UsedForever(run, i, k - 1); }
  }

  /** A key that was stored once and is gone never comes back. */
  lemma {:induction false} GoneForever(run: Run, i: nat, k: nat, key: string)
    requires IsRun(run) && i <= k < |run.states| && key in run.states[i].used && key !in run.states[i].memory
    ensures key !in run.states[k].memory
  {
    if i < k {
      GoneForever(run, i, k - 1, key);
      UsedForever(run, i, k - 1);
    }
  }

  predicate Removes(e: Event, key: string) {
    (e.Begin? && e.code != "" && e.state != "" && key == StateKey(e.state)) || (e.Exchange? && e.code != "" && key == CodeKey(e.code))
  }

  /** An entry stays as it is until a step asks for it. */
  lemma {:induction false} EntryStays(run: Run, i: nat, k: nat, key: string)
    requires IsRun(run) && i <= k < |run.states| && key in run.states[i].memory
    requires forall m :: i <= m < k ==> !Removes(run.events[m], key)
    ensures key in run.states[k].memory && run.states[k].memory[key] == run.states[i].memory[key]
  {
    if i < k {
      EntryStays(run, i, k - 1, key);
      KeysAreUsed(run, k - 1);
      assert !Removes(run.events[k - 1], key);
      KeptByStep(run.states[k - 1], run.events[k - 1], key);
    }
  }

  lemma KeptByStep(s: State, e: Event, key: string)
    requires Enabled(s, e) && s.memory.Keys <= s.used && key in s.memory && !Removes(e, key)
    ensures key in Next(s, e).memory && Next(s, e).memory[key] == s.memory[key]
  {
  }

  lemma {:induction false} PendingStays(run: Run, i: nat, k: nat, p: CallbackId)
    requires IsRun(run) && i <= k < |run.states| && p in run.states[i].pending
    requires forall m :: i <= m < k ==> !(run.events[m].Finish? && run.events[m].callback == p)
    ensures p in run.states[k].pending && run.states[k].pending[p] == run.states[i].pending[p]
  {
    if i < k { PendingStays(run, i, k - 1, p); }
  }

  // ---------------------------------------------------------------- where entries come from

  /** What is stored under a state is the challenge of the start that handed the state out. */
  lemma {:induction false} StateOrigin(run: Run, k: nat, state: string) returns (i: nat)
    requires IsRun(run) && k < |run.states| && StateKey(state) in run.states[k].memory
    ensures i < k && run.events[i].Start? && run.events[i].state == state && IsBase64Url43(run.events[i].challenge)
    ensures run.states[k].memory[StateKey(state)]
         == Entry(Challenge(run.events[i].challenge), run.states[i].now + MOBILE_STATE_TTL_S * 1000)
  {
    var e := run.events[k - 1];
    if e.Finish? { KeysDiffer(state, e.handoff); }
    if e.Start? { KeysDiffer(state, e.state); }
    if e.Start? && e.state == state && IsBase64Url43(e.challenge) {
      i := k - 1;
    } else {
      i := StateOrigin(run, k - 1, state);
    }
  }

  /** A pending callback was the first to present its state, in time. */
  lemma {:induction false} PendingOrigin(run: Run, k: nat, p: CallbackId) returns (i: nat, j: nat)
    requires IsRun(run) && k < |run.states| && p in run.states[k].pending
    ensures j < k && Answers(run, i, j) && run.events[j].callback == p
    ensures run.states[k].pending[p] == run.events[i].challenge
    ensures forall m :: j < m < k ==> !(run.events[m].Finish? && run.events[m].callback == p)
  {
    var s, e := run.states[k - 1], run.events[k - 1];
    if e.Begin? && e.callback == p && ChallengeFor(s.memory, s.now, e.code, e.state).Some? {
      i := StateOrigin(run, k - 1, e.state);
      j := k - 1;
      FirstToAsk(run, i, j);
    } else {
      i, j := PendingOrigin(run, k - 1, p);
    }
  }

  /** If the state is still there, nobody presented it since it was handed out. */
  lemma FirstToAsk(run: Run, i: nat, j: nat)
    requires IsRun(run) && i < j < |run.events| && run.events[i].Start? && IsBase64Url43(run.events[i].challenge)
    requires StateKey(run.events[i].state) in run.states[j].memory
    ensures forall m :: i < m < j ==> !AsksState(run.events[m], run.events[i].state)
  {
    var state := run.events[i].state;
    forall m | i < m < j
      ensures !AsksState(run.events[m], state)
    {
      if AsksState(run.events[m], state) {
        UsedForever(run, i + 1, m + 1);
        assert StateKey(state) !in run.states[m + 1].memory;
        GoneForever(run, m + 1, j, StateKey(state));
      }
    }
  }

  /** What is stored under a code is the token of the callback that made the code, with its challenge. */
  lemma {:induction false} CodeOrigin(run: Run, k: nat, code: string) returns (i: nat, j: nat, l: nat)
    requires IsRun(run) && k < |run.states| && CodeKey(code) in run.states[k].memory
    ensures l < k && Answers(run, i, j) && Returns(run, j, l) && run.events[l].handoff == code
    ensures run.states[k].memory[CodeKey(code)]
         == Entry(Handoff(run.events[l].login.value, run.events[i].challenge), run.states[l].now + MOBILE_CODE_TTL_S * 1000)
  {
    var e := run.events[k - 1];
    if e.Finish? { KeysDiffer(code, e.handoff); }
    if e.Start? { KeysDiffer(e.state, code); }
    if e.Finish? && e.handoff == code && e.login.Some? {
      l := k - 1;
      i, j := PendingOrigin(run, l, e.callback);
    } else {
      i, j, l := CodeOrigin(run, k - 1, code);
    }
  }

  lemma FirstToPresent(run: Run, l: nat, k: nat)
    requires IsRun(run) && l < k < |run.events| && run.events[l].Finish? && run.events[l].login.Some?
    requires CodeKey(run.events[l].handoff) in run.states[k].memory
    ensures forall m :: l < m < k ==> !AsksCode(run.events[m], run.events[l].handoff)
  {
    var code := run.events[l].handoff;
    forall m | l < m < k
      ensures !AsksCode(run.events[m], code)
    {
      if AsksCode(run.events[m], code) {
        UsedForever(run, l + 1, m + 1);
        assert code != "";
        assert CodeKey(code) !in run.states[m + 1].memory;
        GoneForever(run, m + 1, k, CodeKey(code));
      }
    }
  }

  // ---------------------------------------------------------------- the promises

  /** A token comes out exactly where a whole sign-in ends, and it is the token that sign-in minted. */
  lemma ReleasedIff(run: Run, k: nat, token: Jwt)
    requires IsRun(run) && k < |run.events|
    ensures Released(run, k) == Some(token) <==>
            exists i: nat, j: nat, l: nat :: IsSignIn(run, i, j, l, k) && run.events[l].login == Some(token)
  {
    if Released(run, k) == Some(token) {
      var i, j, l := ReleaseNeedsSignIn(run, k);
    }
    forall i: nat, j: nat, l: nat | IsSignIn(run, i, j, l, k)
      ensures Released(run, k) == run.events[l].login
    {
      HonestClientSucceeds(run, i, j, l, k);
    }
  }

  /** Only the app that knows the verifier of the start that led here, and only in time. */
  lemma ReleaseNeedsSignIn(run: Run, k: nat) returns (i: nat, j: nat, l: nat)
    requires IsRun(run) && k < |run.events| && Released(run, k).Some?
    ensures IsSignIn(run, i, j, l, k) && run.events[l].login == Released(run, k)
  {
    i, j, l := CodeOrigin(run, k, run.events[k].code);
    FirstToPresent(run, l, k);
  }

  /**
   * Whoever gets a token out of an exchange presented 43 to 128 unreserved characters, and the challenge given at the
   * start that led here is the base64url of their SHA-256 digest.
   */
  lemma ReleaseProvesPossession(run: Run, k: nat, token: Jwt) returns (i: nat, j: nat, l: nat)
    requires IsRun(run) && k < |run.events| && Released(run, k) == Some(token)
    ensures run.events[k].Exchange? && Holds(run.sha, run.states[k].memory, run.states[k].now, run.events[k].code, run.events[k].verifier, token)
    ensures i < j < l < k && run.events[i].Start? && run.events[j].Begin? && run.events[l].Finish?
    ensures run.events[j].state == run.events[i].state && run.events[l].callback == run.events[j].callback
    ensures run.events[l].login == Some(token) && run.events[l].handoff == run.events[k].code
    ensures HasVerifierShape(run.events[k].verifier)
    ensures run.events[i].challenge == Base64Url.Encode(run.sha(run.events[k].verifier))
  {
    i, j, l := ReleaseNeedsSignIn(run, k);
    RedeemedIff(run.sha, run.states[k].memory, run.states[k].now, run.events[k].code, run.events[k].verifier, token);
  }

  /** Two verifiers that redeem under one challenge have the same digest: the encoding of digests is injective. */
  lemma OneDigestPerChallenge(sha: Sha256Fn, memory: Memory, memory': Memory, now: Time, now': Time, code: string, code': string,
                              v: string, v': string, t: Jwt, t': Jwt)
    requires Redeemed(sha, memory, now, code, v) == Some(t) && Redeemed(sha, memory', now', code', v') == Some(t')
    requires memory[CodeKey(code)].value.challenge == memory'[CodeKey(code')].value.challenge
    ensures sha(v) == sha(v')
  {
    RedeemedIff(sha, memory, now, code, v, t);
    RedeemedIff(sha, memory', now', code', v', t');
    Base64Url.EncodeInjective(sha(v), sha(v'));
  }

  lemma HonestClientSucceeds(run: Run, i: nat, j: nat, l: nat, k: nat)
    requires IsRun(run) && IsSignIn(run, i, j, l, k)
    ensures Released(run, k) == run.events[l].login
  {
    CallbackFindsChallenge(run, i, j);
    PendingStays(run, j + 1, l, run.events[j].callback);
    CodeWaits(run, l, k);
  }

  lemma CallbackFindsChallenge(run: Run, i: nat, j: nat)
    requires IsRun(run) && Answers(run, i, j)
    ensures run.events[j].callback in run.states[j + 1].pending
    ensures run.states[j + 1].pending[run.events[j].callback] == run.events[i].challenge
  {
    var state := run.events[i].state;
    forall m | i < m < j
      ensures !Removes(run.events[m], StateKey(state))
    {
      var e := run.events[m];
      assert !AsksState(e, state);
      if e.Begin? { KeysDiffer(state, e.state); }
      if e.Exchange? { KeysDiffer(state, e.code); }
    }
    EntryStays(run, i + 1, j, StateKey(state));
  }

  lemma CodeWaits(run: Run, l: nat, k: nat)
    requires IsRun(run) && Presents(run, l, k) && run.events[l].login.Some?
    ensures var p := run.events[l].callback;
            p in run.states[l].pending &&
            Fetched(run.states[k].memory, run.states[k].now, CodeKey(run.events[k].code))
            == Some(Handoff(run.events[l].login.value, run.states[l].pending[p]))
    ensures run.events[k].code != ""
  {
    var code := run.events[l].handoff;
    forall m | l < m < k
      ensures !Removes(run.events[m], CodeKey(code))
    {
      var e := run.events[m];
      assert !AsksCode(e, code);
      if e.Begin? { KeysDiffer(e.state, code); }
      if e.Exchange? { KeysDiffer(code, e.code); }
    }
    EntryStays(run, l + 1, k, CodeKey(code));
  }

  /** Once any exchange presented a code that had been handed out, right verifier or not, the code is worth nothing. */
  lemma CodeRedeemedOnce(run: Run, m: nat, k: nat)
    requires IsRun(run) && m < k < |run.events|
    requires run.events[m].Exchange? && run.events[k].Exchange? && run.events[m].code == run.events[k].code
    requires CodeKey(run.events[m].code) in run.states[m].used
    ensures Released(run, k).None?
  {
    if run.events[m].code != "" {
      UsedForever(run, m, m + 1);
      GoneForever(run, m + 1, k, CodeKey(run.events[m].code));
    }
  }

  ghost function Found(run: Run, k: nat): Option<string>
    requires IsRun(run) && k < |run.events|
  {
    match run.events[k]
    case Begin(_, code, state) => ChallengeFor(run.states[k].memory, run.states[k].now, code, state)
    case _ => None
  }

  /** No two callbacks are ever served for one state, and no two exchanges release a token for one code. */
  lemma RedeemedAtMostOnce(run: Run, m: nat, k: nat)
    requires IsRun(run) && m < k < |run.events|
    ensures Found(run, m).Some? && Found(run, k).Some? ==> run.events[m].state != run.events[k].state
    ensures Released(run, m).Some? && Released(run, k).Some? ==> run.events[m].code != run.events[k].code
  {
    KeysAreUsed(run, m);
    if Found(run, m).Some? && Found(run, k).Some? && run.events[m].state == run.events[k].state {
      UsedForever(run, m, m + 1);
      GoneForever(run, m + 1, k, StateKey(run.events[m].state));
    }
    if Released(run, m).Some? && Released(run, k).Some? && run.events[m].code == run.events[k].code {
      CodeRedeemedOnce(run, m, k);
    }
  }

  /** The app's own verifier and challenge: if its start, callback and exchange come first and in time, it gets the token. */
  lemma AppSignsIn(run: Run, random: seq<Byte>, i: nat, j: nat, l: nat, k: nat)
    requires IsRun(run) && |Usable(random)| >= 64
    requires FirstCallback(run, i, j) && Returns(run, j, l) && Presents(run, l, k)
    requires var verifier := VerifierText(Usable(random)[..64]);
             && run.events[i].challenge == Base64ToBase64Url(Base64(run.sha(verifier)))
             && run.events[k].verifier == verifier
    ensures Released(run, k) == run.events[l].login && run.events[l].login.Some?
  {
    var verifier := VerifierText(Usable(random)[..64]);
    VerifierIsAccepted(random, 64);
    ChallengeAgrees(run.sha(verifier));
    ChallengeShape(run.sha(verifier));
    HonestClientSucceeds(run, i, j, l, k);
  }
}
