# Wallet front end: utilities, status badge and wallet hook

This project models the logic of a small web front end that signs a user in
through an email-based ("fast auth") blockchain wallet. It covers three things:

- **`WalletUtils`** (`wallet_utils.dfy`) holds the pure string helpers:
  - `validateEmail`: one regular expression, written here as an explicit
    predicate with a proof that it decides that expression;
  - `formatErrorMessage`: the error-message classifier, with its fixed
    priority order;
  - `getStatusColor`: the status-colour table;
  - `sanitizeInput`: trim, then lower-case.
- **`StatusIndicator`** (`status_indicator.dfy`) holds the two `switch`
  lookups of the status badge: the icon and the label.
- **`UseWallet`** (`use_wallet.dfy`) holds the `useWallet` hook. It has five
  state cells: `walletSelector`, `isConnected`, `isLoading`, `error` and
  `accountId`. Each operation exists twice. One form is a function on a
  `HookState` record. The other is a method of the class `WalletHook` that
  updates the cells one at a time, as the code's setters do, and whose
  contract ties the new cells to the function. Each call into the wallet SDK
  becomes an `Outcome` parameter, `Success` or `Failure(message)`. There are
  four such calls:
  - `setupWalletSelector`;
  - `selector.wallet('fast-auth-wallet')`;
  - `wallet.signIn`;
  - `wallet.signOut`.

  The lemmas prove that the invariant `isConnected <==> accountId != null`
  holds in every state reached by any sequence of operations and outcomes,
  together with two further invariants.

Whitespace means the ECMAScript WhiteSpace and LineTerminator code points.
That set is what the regular-expression class `\s` matches and what
`String.prototype.trim` removes. It is written out in `WalletUtils.IsSpace`.

The hook has no guards. `signIn` does not validate the email, and it does not
refuse a call while connecting or connected. A failed `signOut` keeps the
session. `clearError` may be called in any state. Two lemmas show this:
- `UseWallet.SignInHasNoGuard` shows that `signIn` succeeds whatever the
  connection, the loading flag or the email;
- `UseWallet.FailedSignOutKeepsSession` shows that a failed `signOut` keeps
  the session.

## Model

| member | source | states |
|---|---|---|
| WalletUtils.ValidateEmail | app/src/utils/walletUtils.js:11-14 | An accepted address contains '@' and has at least five characters. The exact accepted set is stated by the two lemmas below. |
| WalletUtils.EmailMatchesPattern | app/src/utils/walletUtils.js:11-14 | `ValidateEmail(s)` holds exactly when `s` is a non-empty run of `[^\s@]`, then `@`, then a run, then `.`, then a run, and nothing else. This is the regular expression matched against the whole string. |
| WalletUtils.EmailCharacterisation | app/src/utils/walletUtils.js:12 | `ValidateEmail(s)` holds exactly when all of these hold: `s` has no whitespace; `s` has exactly one `@`; at least one character comes before the `@`; after the `@` there is a `.` with at least one character on each side of it. |
| WalletUtils.EmailRejections | app/src/utils/walletUtils.js:12 | The empty string is rejected. So is any string with whitespace, any string with no `@`, and any string with two or more `@`. |
| WalletUtils.EmailAcceptsShape | app/src/utils/walletUtils.js:12 | Every `local@host.tld` is accepted when its three parts are non-empty and contain no whitespace and no `@`. |
| WalletUtils.IncludesAt | app/src/utils/walletUtils.js:22 | `Includes(s, part)`, which models `String.prototype.includes`, holds exactly when `part` occurs at some position of `s`. |
| WalletUtils.FormatErrorMessage | app/src/utils/walletUtils.js:21-35 | The result is always one of exactly five fixed texts. |
| WalletUtils.FormatErrorPriority | app/src/utils/walletUtils.js:22-34 | Each text is returned exactly when its phrase is contained and no phrase earlier in the order is. The order is 'User rejected', 'Network error', 'Invalid email', 'Contract error'. The default text is returned exactly when none of the four is contained. |
| WalletUtils.FormatErrorFirstPhraseWins | app/src/utils/walletUtils.js:22-24 | A message that contains both 'User rejected' and 'Network error', in either order and at any positions, gives 'Authentication cancelled by user'. |
| WalletUtils.GetStatusColor | app/src/utils/walletUtils.js:42-51 | The colour is always one of the five colours in the table. |
| WalletUtils.StatusColorTable | app/src/utils/walletUtils.js:43-50 | The five statuses map to #4CAF50, #FF9800, #F44336, #2196F3 and #9E9E9E. Any other status gets #9E9E9E. A status is painted #9E9E9E exactly when it is 'disconnected' or is not in the table. |
| WalletUtils.GetStatusColorAsWritten | app/src/utils/walletUtils.js:42-50 | The lookup as written: the result is always truthy. A table key gives its own colour. A string that is neither a key nor an inherited property name gives '#9E9E9E'. |
| WalletUtils.StatusColorAsWrittenAgrees | app/src/utils/walletUtils.js:50 | The object lookup as written gives the table's colour for every string that is not the name of an inherited `Object.prototype` property. |
| WalletUtils.StatusColorAsWrittenLeaks | app/src/utils/walletUtils.js:50 | As written, 'toString' gives the inherited function and '__proto__' gives an object. Neither is a colour. |
| WalletUtils.Trim | app/src/utils/walletUtils.js:59 | The result is `s[i..j]` with only whitespace outside it, and it neither starts nor ends with whitespace. |
| WalletUtils.ToLower | app/src/utils/walletUtils.js:59 | The result has the input's length and no upper-case ASCII letter. Each position is whitespace exactly when the input's is, every character that is not an upper-case ASCII letter is kept, and each upper-case ASCII letter becomes its lower-case letter. |
| WalletUtils.SanitizeInput | app/src/utils/walletUtils.js:58-60 | The result is never longer than the input. It is empty exactly when the input is all whitespace. |
| WalletUtils.SanitizeShape | app/src/utils/walletUtils.js:59 | The result has no leading or trailing whitespace and no upper-case ASCII letter. |
| WalletUtils.SanitizeContents | app/src/utils/walletUtils.js:59 | The result is the lower-cased input with only whitespace removed from its two ends. |
| WalletUtils.SanitizeIdempotent | app/src/utils/walletUtils.js:59 | `SanitizeInput(SanitizeInput(x)) == SanitizeInput(x)`. |
| StatusIndicator.GetStatusIcon | app/src/components/StatusIndicator.jsx:9-22 | The icon is always one of the five circles. |
| StatusIndicator.GetStatusText | app/src/components/StatusIndicator.jsx:24-37 | The label is always one of the five labels. |
| StatusIndicator.KnownStatusBadges | app/src/components/StatusIndicator.jsx:9-37 | connected, connecting, error and ready map to 🟢/Connected, 🟡/Connecting..., 🔴/Error and 🔵/Ready. |
| StatusIndicator.DefaultBadge | app/src/components/StatusIndicator.jsx:19-35 | A status gets ⚪ exactly when it is not one of the four known statuses, and likewise 'Disconnected'. 'disconnected' is such a status. |
| StatusIndicator.IconMatchesLabel | app/src/components/StatusIndicator.jsx:9-37 | Each icon appears exactly when its own label does (🟢 with 'Connected', and so on). |
| StatusIndicator.SameIconSameLabel | app/src/components/StatusIndicator.jsx:9-37 | Two statuses share an icon exactly when they share a label. |
| StatusIndicator.DefaultBadgeIsGrey | app/src/components/StatusIndicator.jsx:19-20 | The statuses with the default label are exactly those that the corrected `GetStatusColor` paints #9E9E9E (walletUtils.js:48-50); as written, the inherited names of the Findings row get no colour. Two statuses share a colour exactly when they share an icon. |
| UseWallet.OrElse | app/src/hooks/useWallet.js:28-29 | `value \|\| fallback` gives the variable when it is set and non-empty, and the fallback when it is unset or empty. |
| UseWallet.SelectorConfig | app/src/hooks/useWallet.js:24-32 | The network is 'testnet'. The two URLs are never empty. Each URL is its placeholder exactly when its variable is unset, empty or equal to the placeholder. A set, non-empty variable is passed through as the URL. |
| UseWallet.Settle | app/src/hooks/useWallet.js:59-64 | Awaiting the wallet lookup and then the call succeeds only when both succeed. Otherwise it fails with the first failure. |
| UseWallet.AfterInitialize | app/src/hooks/useWallet.js:19-42 | After `initializeWallet` settles, loading is false, the session cells are unchanged, and `error` is null exactly on success. Success stores the selector. Failure keeps the old selector and sets 'Failed to initialize wallet'. |
| UseWallet.AfterSignIn | app/src/hooks/useWallet.js:49-77 | The selector never changes, and without one nothing changes. With one: loading ends; `error` is null exactly when both SDK calls succeed; the hook is connected afterwards exactly when it was before or the calls succeeded; success sets `accountId` to the email; `isConnected <==> accountId != null` is kept. |
| UseWallet.SignInResult | app/src/hooks/useWallet.js:49-77 | The promise resolves exactly when there is a selector and both SDK calls succeed. Without a selector it rejects with 'Wallet not initialized'. Otherwise a rejection carries the message that `error` records. |
| UseWallet.AfterSignOut | app/src/hooks/useWallet.js:80-101 | The selector never changes, and without one nothing changes. With one: loading ends; `error` is null exactly when both SDK calls succeed; the hook stays connected exactly when it was connected and a call failed; `isConnected <==> accountId != null` is kept. |
| UseWallet.AfterClearError | app/src/hooks/useWallet.js:104-106 | `error` becomes null and every other cell is as it was. |
| UseWallet.WalletHook.constructor | app/src/hooks/useWallet.js:11-15 | The hook starts with no selector, not connected, loading, no error and no account. |
| UseWallet.WalletHook.InitializeWallet | app/src/hooks/useWallet.js:19-42 | Success stores the selector and leaves `error` null. Failure leaves the selector as it was and sets 'Failed to initialize wallet'. Either way `isLoading` ends false and the session cells do not change. The config is what `SelectorConfig` builds. |
| UseWallet.WalletHook.SignIn | app/src/hooks/useWallet.js:49-77 | With no selector, the call fails with 'Wallet not initialized' and no cell changes. Success sets connected, `accountId == email`, error null and loading false. Failure sets `error` to the message and loading false, keeps `isConnected` and `accountId`, and fails with the same message. |
| UseWallet.WalletHook.SignOut | app/src/hooks/useWallet.js:80-101 | With no selector, nothing changes. Success disconnects and clears `accountId`. Failure sets `error`, keeps `isConnected` and `accountId`, and raises nothing. Loading ends false in both cases. |
| UseWallet.WalletHook.ClearError | app/src/hooks/useWallet.js:104-106 | `error` becomes null and no other cell changes. |
| UseWallet.ApplyPreservesInvariant | app/src/hooks/useWallet.js:19-106 | Every operation, with any outcome, keeps three things true: `isConnected <==> accountId != null`; a session implies a selector; `isLoading` is false in every settled state after initialisation. |
| UseWallet.RunPreservesInvariant | app/src/hooks/useWallet.js:19-106 | The invariant survives any sequence of operations. |
| UseWallet.ReachableInvariant | app/src/hooks/useWallet.js:11-106 | The initial state satisfies the invariant, and so does every state reachable from it. |
| UseWallet.SignInHasNoGuard | app/src/hooks/useWallet.js:49-67 | With a selector, a successful `signIn` gives the same state whatever `isConnected`, `isLoading` or the previous error were. 'not-an-email' is rejected by `validateEmail` and still becomes the `accountId`. |
| UseWallet.FailedSignOutKeepsSession | app/src/hooks/useWallet.js:94-97 | A failed `signOut` keeps `isConnected` and `accountId` and stores the error message. |
| UseWallet.SessionScenario | app/src/hooks/useWallet.js:19-101 | Successful initialisation, sign-in and sign-out give, in turn: ready and not connected; connected as the email; disconnected. |

## Findings

| source | as written | input that shows it | evidently intended | confidence | as-written member | corrected member |
|---|---|---|---|---|---|---|
| app/src/utils/walletUtils.js:50 | `statusColors[status] \|\| '#9E9E9E'` reads a property of a plain object literal, which inherits the properties of `Object.prototype` | `getStatusColor('toString')` gives the `toString` function, and `getStatusColor('__proto__')` gives `Object.prototype`; neither is a colour | every status that is not one of the five table keys gets '#9E9E9E' | high (follows from JavaScript property lookup; not executed) | WalletUtils.StatusColorAsWrittenLeaks | WalletUtils.StatusColorTable |

`WalletUtils.GetStatusColorAsWritten` models the lookup as written, and
`WalletUtils.StatusColorAsWrittenAgrees` shows that it differs only on the
inherited names. The rest of the model uses the corrected
`WalletUtils.GetStatusColor`, which is a lookup in a `map`.

## Left out

- SanitizeInput: lowercases only the ASCII letters A–Z. JavaScript's `toLowerCase` also maps non-ASCII letters by Unicode case mapping, which is not modelled.
- Strings are sequences of Unicode scalar values. JavaScript strings are UTF-16 code units, so lone surrogates cannot be represented. No other result differs, because no surrogate is whitespace or '@'.
- Non-string arguments are not modelled: `validateEmail` coerces them to strings, and `sanitizeInput` and `formatErrorMessage` throw on them. Every operation takes a string, and `formatErrorMessage` takes the error's `message`.
- An SDK error without a string `message` is not modelled; every `Failure` carries a string.
- `isWalletAvailable` is left out. It is a dynamic type check whose result is not even a boolean for falsy input.
- `logWalletOperation` and the `console.error` calls are left out. They are diagnostic output only.
- The wallet SDK itself is not modelled. Each call is only the `Outcome` it settles to. The arguments the code passes to `wallet.signIn` are not recorded: `contractId`, `email` and `isRecovery: false`. `contractId` is a parameter of `SignIn` that no cell depends on.
- React scheduling is not modelled: state batching, `useEffect`/`useCallback` re-creation, stale closures and interleaving of concurrent async calls. Each operation is one sequential step, applied in full once its SDK calls have settled.
- The JSX of `StatusIndicator` (the `size` prop and class names) is not modelled. Neither is `App.jsx`, `PerformanceMonitor.jsx` (timers and floating-point timings) or `LoadingSpinner.jsx`, which are presentation or foreign calls only.
