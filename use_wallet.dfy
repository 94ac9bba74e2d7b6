/** The wallet hook: five state cells and the operations that update them
    around awaited calls into the wallet SDK. Each SDK call is represented by
    the outcome it settles to, supplied by the caller. */
module UseWallet {
  import WalletUtils

  datatype Option<T> = None | Some(value: T)

  /** What an awaited SDK call settled to: a value, or an error with its
      message. */
  datatype Outcome<T> = Success(value: T) | Failure(message: string)

  /** The selector object the SDK resolves to; opaque here. */
  datatype Selector = Selector(handle: nat)

  /** The configuration handed to setupWalletSelector. */
  datatype WalletConfig = WalletConfig(network: string, relayerUrl: string, walletUrl: string)

  const Network := "testnet"
  const RelayerUrlPlaceholder := "YOUR_RELAYER_URL"
  const WalletUrlPlaceholder := "YOUR_WALLET_URL"
  const InitFailedMessage := "Failed to initialize wallet"
  const NotInitializedMessage := "Wallet not initialized"

  /** `value || fallback` on an environment variable that may be unset. */
  function OrElse(value: Option<string>, fallback: string): (r: string)
    ensures r == fallback || (value.Some? && r == value.value)
    ensures value.Some? && value.value != "" ==> r == value.value
    ensures value.None? || value.value == "" ==> r == fallback
  {
    if value.Some? && value.value != "" then value.value else fallback
  }

  /** The configuration built from the two environment variables. */
  function SelectorConfig(envRelayerUrl: Option<string>, envWalletUrl: Option<string>): (c: WalletConfig)
    ensures c.network == Network
    ensures c.relayerUrl != "" && c.walletUrl != ""
    ensures c.relayerUrl == RelayerUrlPlaceholder <==>
      envRelayerUrl.None? || envRelayerUrl.value in {"", RelayerUrlPlaceholder}
    ensures c.walletUrl == WalletUrlPlaceholder <==>
      envWalletUrl.None? || envWalletUrl.value in {"", WalletUrlPlaceholder}
    ensures envRelayerUrl.Some? && envRelayerUrl.value != "" ==> c.relayerUrl == envRelayerUrl.value
    ensures envWalletUrl.Some? && envWalletUrl.value != "" ==> c.walletUrl == envWalletUrl.value
  {
    WalletConfig(Network, OrElse(envRelayerUrl, RelayerUrlPlaceholder), OrElse(envWalletUrl, WalletUrlPlaceholder))
  }

  /** Awaiting selector.wallet(...) and then a call on that wallet: the first
      failure, if any, is what reaches the catch block. */
  function Settle(lookup: Outcome<()>, call: Outcome<()>): (r: Outcome<()>)
    ensures r.Success? <==> lookup.Success? && call.Success?
    ensures r.Failure? ==> r == (if lookup.Failure? then lookup else call)
  {
    if lookup.Failure? then lookup else call
  }

  // ---------------------------------------------------------------------------
  // The state cells and each operation as a function of them
  // ---------------------------------------------------------------------------

  datatype HookState = HookState(
    walletSelector: Option<Selector>,
    isConnected: bool,
    isLoading: bool,
    error: Option<string>,
    accountId: Option<string>)

  /** The initial values of the five useState calls. */
  const InitialState := HookState(None, false, true, None, None)

  /** initializeWallet once setupWalletSelector has settled: the session cells
      are untouched, loading ends, and the error is set exactly on failure. */
  function AfterInitialize(st: HookState, setup: Outcome<Selector>): (r: HookState)
    ensures !r.isLoading
    ensures r.isConnected == st.isConnected && r.accountId == st.accountId
    ensures r.error.None? <==> setup.Success?
    ensures setup.Success? ==> r.walletSelector == Some(setup.value)
    ensures setup.Failure? ==> r.walletSelector == st.walletSelector && r.error == Some(InitFailedMessage)
  {
    match setup
    case Success(selector) => st.(walletSelector := Some(selector), isLoading := false, error := None)
    case Failure(_) => st.(isLoading := false, error := Some(InitFailedMessage))
  }

  /** signIn once its SDK calls have settled: nothing changes without a
      selector; otherwise loading ends, success connects as the email, and
      failure only records the message. */
  function AfterSignIn(st: HookState, email: string, lookup: Outcome<()>, call: Outcome<()>): (r: HookState)
    ensures r.walletSelector == st.walletSelector
    ensures st.walletSelector.None? ==> r == st
    ensures st.walletSelector.Some? ==> !r.isLoading
    ensures st.walletSelector.Some? ==> (r.error.None? <==> lookup.Success? && call.Success?)
    ensures st.walletSelector.Some? ==> (r.isConnected <==> st.isConnected || Settle(lookup, call).Success?)
    ensures st.walletSelector.Some? && Settle(lookup, call).Success? ==> r.accountId == Some(email)
    ensures SessionConsistent(st) ==> SessionConsistent(r)
  {
    if st.walletSelector.None? then st
    else match Settle(lookup, call)
      case Success(_) => st.(isConnected := true, accountId := Some(email), isLoading := false, error := None)
      case Failure(msg) => st.(isLoading := false, error := Some(msg))
  }

  /** What the promise returned by signIn settles to. */
  function SignInResult(st: HookState, lookup: Outcome<()>, call: Outcome<()>): (r: Outcome<()>)
    ensures r.Success? <==> st.walletSelector.Some? && lookup.Success? && call.Success?
    ensures st.walletSelector.None? ==> r == Failure(NotInitializedMessage)
    ensures forall email :: r.Failure? && st.walletSelector.Some? ==>
      AfterSignIn(st, email, lookup, call).error == Some(r.message)
  {
    if st.walletSelector.None? then Failure(NotInitializedMessage) else Settle(lookup, call)
  }

  /** signOut once its SDK calls have settled: nothing changes without a
      selector; otherwise loading ends, success ends the session, and failure
      keeps it and records the message. */
  function AfterSignOut(st: HookState, lookup: Outcome<()>, call: Outcome<()>): (r: HookState)
    ensures r.walletSelector == st.walletSelector
    ensures st.walletSelector.None? ==> r == st
    ensures st.walletSelector.Some? ==> !r.isLoading
    ensures st.walletSelector.Some? ==> (r.error.None? <==> lookup.Success? && call.Success?)
    ensures st.walletSelector.Some? ==> (r.isConnected <==> st.isConnected && Settle(lookup, call).Failure?)
    ensures SessionConsistent(st) ==> SessionConsistent(r)
  {
    if st.walletSelector.None? then st
    else match Settle(lookup, call)
      case Success(_) => st.(isConnected := false, accountId := None, isLoading := false, error := None)
      case Failure(msg) => st.(isLoading := false, error := Some(msg))
  }

  /** clearError: the error is gone and every other cell is as it was. */
  function AfterClearError(st: HookState): (r: HookState)
    ensures r.error.None?
    ensures r.(error := st.error) == st
  {
    st.(error := None)
  }

  /** One settled operation of the hook. */
  datatype Event =
    | Initialize(setup: Outcome<Selector>)
    | SignIn(email: string, contractId: string, lookup: Outcome<()>, call: Outcome<()>)
    | SignOut(lookup: Outcome<()>, call: Outcome<()>)
    | ClearError

  function Apply(st: HookState, ev: Event): HookState {
    match ev
    case Initialize(setup) => AfterInitialize(st, setup)
    case SignIn(email, _, lookup, call) => AfterSignIn(st, email, lookup, call)
    case SignOut(lookup, call) => AfterSignOut(st, lookup, call)
    case ClearError => AfterClearError(st)
  }

  /** The state after the events, one after another. */
  function Run(st: HookState, events: seq<Event>): HookState
    decreases |events|
  {
    if events == [] then st else Run(Apply(st, events[0]), events[1..])
  }

  // ---------------------------------------------------------------------------
  // Invariants
  // ---------------------------------------------------------------------------

  /** isConnected and accountId are set and cleared together. */
  predicate SessionConsistent(st: HookState) {
    st.isConnected <==> st.accountId.Some?
  }

  /** The invariant every reachable state keeps: the session cells agree, a
      session needs a selector, and the loading flag is false in every settled
      state after initialisation. */
  predicate HookInvariant(st: HookState) {
    SessionConsistent(st)
    && (st.isConnected ==> st.walletSelector.Some?)
    && (st.isLoading ==> st == InitialState)
  }

  lemma ApplyPreservesInvariant(st: HookState, ev: Event)
    requires HookInvariant(st)
    ensures HookInvariant(Apply(st, ev))
  {
  }

  lemma {:induction false} RunPreservesInvariant(st: HookState, events: seq<Event>)
    requires HookInvariant(st)
    ensures HookInvariant(Run(st, events))
    decreases |events|
  {
    if events != [] {
      ApplyPreservesInvariant(st, events[0]);
      RunPreservesInvariant(Apply(st, events[0]), events[1..]);
    }
  }

  /** Whatever the operations and their outcomes, every state reached from the
      initial one keeps the invariant. */
  lemma ReachableInvariant(events: seq<Event>)
    ensures HookInvariant(InitialState)
    ensures HookInvariant(Run(InitialState, events))
  {
    RunPreservesInvariant(InitialState, events);
  }

  /** signIn checks neither the connection, the loading flag nor the email:
      with a selector, a successful call always yields the same state, and an
      email that validateEmail rejects signs in all the same. */
  lemma SignInHasNoGuard(st: HookState, email: string)
    requires st.walletSelector.Some?
    ensures AfterSignIn(st, email, Success(()), Success(()))
         == HookState(st.walletSelector, true, false, None, Some(email))
    ensures !WalletUtils.ValidateEmail("not-an-email")
         && AfterSignIn(st, "not-an-email", Success(()), Success(())).accountId == Some("not-an-email")
  {
    WalletUtils.EmailRejections("not-an-email");
  }

  /** A failed signOut keeps the session and reports the error instead. */
  lemma FailedSignOutKeepsSession(st: HookState, lookup: Outcome<()>, call: Outcome<()>)
    requires st.walletSelector.Some? && Settle(lookup, call).Failure?
    ensures AfterSignOut(st, lookup, call).isConnected == st.isConnected
    ensures AfterSignOut(st, lookup, call).accountId == st.accountId
    ensures AfterSignOut(st, lookup, call).error == Some(Settle(lookup, call).message)
  {
  }

  /** Initialisation, sign-in and sign-out succeeding in turn. */
  lemma SessionScenario(selector: Selector, email: string, contractId: string)
    ensures Run(InitialState, [Initialize(Success(selector))])
         == HookState(Some(selector), false, false, None, None)
    ensures Run(InitialState, [Initialize(Success(selector)), SignIn(email, contractId, Success(()), Success(()))])
         == HookState(Some(selector), true, false, None, Some(email))
    ensures Run(InitialState, [Initialize(Success(selector)), SignIn(email, contractId, Success(()), Success(())),
                               SignOut(Success(()), Success(()))])
         == HookState(Some(selector), false, false, None, None)
  {
    var e0, e1, e2 := Initialize(Success(selector)), SignIn(email, contractId, Success(()), Success(())),
                      SignOut(Success(()), Success(()));
    var s1 := Apply(InitialState, e0);
    var s2 := Apply(s1, e1);
    assert [e0][1..] == [] && [e1][1..] == [] && [e2][1..] == [];
    assert [e0, e1][1..] == [e1];
    assert [e0, e1, e2][1..] == [e1, e2];
    assert [e1, e2][1..] == [e2];
    assert Run(InitialState, [e0]) == s1;
    assert Run(InitialState, [e0, e1]) == Run(s1, [e1]) == s2;
    assert Run(InitialState, [e0, e1, e2]) == Run(s1, [e1, e2]) == Run(s2, [e2]) == Apply(s2, e2);
  }

  // ---------------------------------------------------------------------------
  // The hook as an object whose cells the operations update in place
  // ---------------------------------------------------------------------------

  class WalletHook {
    var walletSelector: Option<Selector>
    var isConnected: bool
    var isLoading: bool
    var error: Option<string>
    var accountId: Option<string>

    function State(): HookState
      reads this
    {
      HookState(walletSelector, isConnected, isLoading, error, accountId)
    }

    predicate Valid()
      reads this
    {
      HookInvariant(State())
    }

    /** The five useState cells with their initial values. */
    constructor ()
      ensures walletSelector == None && !isConnected && isLoading && error == None && accountId == None
      ensures State() == InitialState && Valid()
    {
      walletSelector := None;
      isConnected := false;
      isLoading := true;
      error := None;
      accountId := None;
    }

    /** initializeWallet, run once by the mount effect; `setup` is what
        setupWalletSelector(config) settles to. */
    method InitializeWallet(envRelayerUrl: Option<string>, envWalletUrl: Option<string>, setup: Outcome<Selector>)
      returns (config: WalletConfig)
      modifies this
      ensures config == SelectorConfig(envRelayerUrl, envWalletUrl)
      ensures setup.Success? ==> walletSelector == Some(setup.value) && error == None
      ensures setup.Failure? ==> walletSelector == old(walletSelector) && error == Some(InitFailedMessage)
      ensures !isLoading
      ensures isConnected == old(isConnected) && accountId == old(accountId)
      ensures State() == AfterInitialize(old(State()), setup)
      ensures old(Valid()) ==> Valid()
    {
      isLoading := true;
      error := None;
      config := SelectorConfig(envRelayerUrl, envWalletUrl);
      match setup {
        case Success(selector) =>
          walletSelector := Some(selector);
        case Failure(_) =>
          error := Some(InitFailedMessage);
      }
      isLoading := false;
    }

    /** signIn(email, contractId); `lookup` is what selector.wallet(...)
        settles to and `call` what wallet.signIn(...) settles to. The result
        is what the returned promise settles to. */
    method SignIn(email: string, contractId: string, lookup: Outcome<()>, call: Outcome<()>)
      returns (result: Outcome<()>)
      modifies this
      ensures old(walletSelector).None? ==> result == Failure(NotInitializedMessage) && State() == old(State())
      ensures old(walletSelector).Some? ==>
        result == Settle(lookup, call) && !isLoading && walletSelector == old(walletSelector)
      ensures old(walletSelector).Some? && result.Success? ==>
        isConnected && accountId == Some(email) && error == None
      ensures old(walletSelector).Some? && result.Failure? ==>
        error == Some(result.message) && isConnected == old(isConnected) && accountId == old(accountId)
      ensures State() == AfterSignIn(old(State()), email, lookup, call)
      ensures result == SignInResult(old(State()), lookup, call)
      ensures old(Valid()) ==> Valid()
    {
      if walletSelector.None? {
        return Failure(NotInitializedMessage);
      }
      isLoading := true;
      error := None;
      var settled := Settle(lookup, call);
      match settled {
        case Success(_) =>
          isConnected := true;
          accountId := Some(email);
        case Failure(msg) =>
          error := Some(msg);
      }
      result := settled;
      isLoading := false;
    }

    /** signOut(); `lookup` is what selector.wallet(...) settles to and `call`
        what wallet.signOut() settles to. Failures are caught, not raised. */
    method SignOut(lookup: Outcome<()>, call: Outcome<()>)
      modifies this
      ensures old(walletSelector).None? ==> State() == old(State())
      ensures old(walletSelector).Some? ==> !isLoading && walletSelector == old(walletSelector)
      ensures old(walletSelector).Some? && Settle(lookup, call).Success? ==>
        !isConnected && accountId == None && error == None
      ensures old(walletSelector).Some? && Settle(lookup, call).Failure? ==>
        error == Some(Settle(lookup, call).message)
        && isConnected == old(isConnected) && accountId == old(accountId)
      ensures State() == AfterSignOut(old(State()), lookup, call)
      ensures old(Valid()) ==> Valid()
    {
      if walletSelector.None? {
        return;
      }
      isLoading := true;
      error := None;
      var settled := Settle(lookup, call);
      match settled {
        case Success(_) =>
          isConnected := false;
          accountId := None;
        case Failure(msg) =>
          error := Some(msg);
      }
      isLoading := false;
    }

    /** clearError(): only the error cell changes. */
    method ClearError()
      modifies this
      ensures error == None
      ensures walletSelector == old(walletSelector) && isConnected == old(isConnected)
      ensures isLoading == old(isLoading) && accountId == old(accountId)
      ensures State() == AfterClearError(old(State()))
      ensures old(Valid()) ==> Valid()
    {
      error := None;
    }
  }
}
