/** Pure string helpers of the wallet front end: the email check, the
    translation of SDK error messages into user-facing text, the colour of a
    connection-status badge and the normalisation of user input. */
module WalletUtils {

  // ---------------------------------------------------------------------------
  // Characters
  // ---------------------------------------------------------------------------

  /** ECMAScript's WhiteSpace and LineTerminator code points: the set matched by
      the regular-expression class \s and removed by String.prototype.trim. */
  predicate IsSpace(c: char) {
    c in SpaceChars
  }

  const SpaceChars: set<char> :=
    {'\t', '\n', '\U{B}', '\U{C}', '\r', ' ', '\U{A0}', '\U{1680}',
     '\U{2000}', '\U{2001}', '\U{2002}', '\U{2003}', '\U{2004}', '\U{2005}',
     '\U{2006}', '\U{2007}', '\U{2008}', '\U{2009}', '\U{200A}',
     '\U{2028}', '\U{2029}', '\U{202F}', '\U{205F}', '\U{3000}', '\U{FEFF}'}

  predicate NoSpace(s: string) {
    forall k :: 0 <= k < |s| ==> !IsSpace(s[k])
  }

  predicate AllSpace(s: string) {
    forall k :: 0 <= k < |s| ==> IsSpace(s[k])
  }

  /** Number of occurrences of c in s. */
  function Occurrences(s: string, c: char): nat {
    if s == [] then 0 else (if s[0] == c then 1 else 0) + Occurrences(s[1..], c)
  }

  lemma {:induction false} OccurrencesZero(s: string, c: char)
    ensures Occurrences(s, c) == 0 <==> c !in s
  {
    if s != [] {
      OccurrencesZero(s[1..], c);
      assert c in s <==> s[0] == c || c in s[1..];
    }
  }

  lemma {:induction false} OccurrencesAppend(a: string, b: string, c: char)
    ensures Occurrences(a + b, c) == Occurrences(a, c) + Occurrences(b, c)
  {
    if a == [] {
      assert a + b == b;
    } else {
      assert (a + b)[0] == a[0] && (a + b)[1..] == a[1..] + b;
      OccurrencesAppend(a[1..], b, c);
    }
  }

  /** Splitting s around position i splits the count of c accordingly. */
  lemma OccurrencesAround(s: string, i: nat, c: char)
    requires i < |s|
    ensures Occurrences(s, c)
         == Occurrences(s[..i], c) + (if s[i] == c then 1 else 0) + Occurrences(s[i+1..], c)
  {
    assert s == s[..i] + ([s[i]] + s[i+1..]);
    OccurrencesAppend(s[..i], [s[i]] + s[i+1..], c);
    OccurrencesAppend([s[i]], s[i+1..], c);
  }

  /** Position of the first c in s, or |s| when there is none. */
  function IndexOf(s: string, c: char): (i: nat)
    ensures i <= |s|
    ensures i < |s| ==> s[i] == c
    ensures forall k :: 0 <= k < i ==> s[k] != c
  {
    if s == [] then 0 else if s[0] == c then 0 else 1 + IndexOf(s[1..], c)
  }

  // ---------------------------------------------------------------------------
  // validateEmail: /^[^\s@]+@[^\s@]+\.[^\s@]+$/.test(email)
  // ---------------------------------------------------------------------------

  /** The character class [^\s@]. */
  predicate IsEmailChar(c: char) {
    !IsSpace(c) && c != '@'
  }

  predicate AllEmailChars(s: string) {
    forall k :: 0 <= k < |s| ==> IsEmailChar(s[k])
  }

  /** An '@' at i and a '.' at j, each with at least one character on
      either side. */
  predicate AtAndDot(s: string, i: int, j: int) {
    0 < i && i + 1 < j && j + 1 < |s| && s[i] == '@' && s[j] == '.'
  }

  /** The three runs of the pattern are s[..i], s[i+1..j] and s[j+1..]. */
  ghost predicate EmailSplit(s: string, i: int, j: int) {
    AtAndDot(s, i, j)
    && AllEmailChars(s[..i]) && AllEmailChars(s[i+1..j]) && AllEmailChars(s[j+1..])
  }

  /** The pattern read literally: a non-empty run of [^\s@], '@', a non-empty
      run, '.', a non-empty run, and nothing else. */
  ghost predicate MatchesEmailPattern(s: string) {
    exists i, j :: EmailSplit(s, i, j)
  }

  /** Every character except the one at position i is in [^\s@]. */
  predicate EmailCharsExcept(s: string, i: int) {
    forall k :: 0 <= k < |s| && k != i ==> IsEmailChar(s[k])
  }

  /** [^\s@]+\.[^\s@]+ on the part after the '@'. Since '.' is itself in the
      class, this is: all of the class, with a '.' neither first nor last. */
  predicate IsEmailDomain(d: string) {
    |d| >= 3 && AllEmailChars(d) && '.' in d[1..|d|-1]
  }

  /** validateEmail: the first '@' ends a non-empty local part of the class,
      and what follows it is a domain. */
  predicate ValidateEmail(s: string): (ok: bool)
    ensures ok ==> '@' in s && |s| >= 5
  {
    var i := IndexOf(s, '@');
    0 < i < |s| && AllEmailChars(s[..i]) && IsEmailDomain(s[i+1..])
  }

  /** Three runs of the class around '@' and '.' are one string of the class
      with the '@' as its only exception. */
  lemma EmailSplitFlat(s: string, i: int, j: int)
    requires AtAndDot(s, i, j)
    ensures EmailSplit(s, i, j) <==> EmailCharsExcept(s, i)
  {
    if EmailSplit(s, i, j) {
      forall k | 0 <= k < |s| && k != i
        ensures IsEmailChar(s[k])
      {
        if k < i {
          assert s[k] == s[..i][k];
        } else if k < j {
          assert s[k] == s[i+1..j][k - i - 1];
        } else if j < k {
          assert s[k] == s[j+1..][k - j - 1];
        }
      }
    }
    if EmailCharsExcept(s, i) {
      var local, host, tld := s[..i], s[i+1..j], s[j+1..];
      forall k | 0 <= k < |local| ensures IsEmailChar(local[k]) { assert local[k] == s[k]; }
      forall k | 0 <= k < |host| ensures IsEmailChar(host[k]) { assert host[k] == s[i + 1 + k]; }
      forall k | 0 <= k < |tld| ensures IsEmailChar(tld[k]) { assert tld[k] == s[j + 1 + k]; }
    }
  }

  /** ValidateEmail, in the same flat terms. */
  lemma ValidateEmailFlat(s: string)
    ensures ValidateEmail(s) <==> exists i, j :: AtAndDot(s, i, j) && EmailCharsExcept(s, i)
  {
    if ValidateEmail(s) {
      var i := IndexOf(s, '@');
      var d := s[i+1..];
      var m :| 0 <= m < |d| - 2 && d[1..|d|-1][m] == '.';
      var j := i + 2 + m;
      assert s[j] == d[m + 1];
      forall k | 0 <= k < |s| && k != i
        ensures IsEmailChar(s[k])
      {
        if k < i {
          assert s[k] == s[..i][k];
        } else {
          assert s[k] == d[k - i - 1];
        }
      }
      assert AtAndDot(s, i, j) && EmailCharsExcept(s, i);
    }
    if exists i, j :: AtAndDot(s, i, j) && EmailCharsExcept(s, i) {
      var i, j :| AtAndDot(s, i, j) && EmailCharsExcept(s, i);
      assert IndexOf(s, '@') == i;
      var local, d := s[..i], s[i+1..];
      forall k | 0 <= k < |local| ensures IsEmailChar(local[k]) { assert local[k] == s[k]; }
      forall k | 0 <= k < |d| ensures IsEmailChar(d[k]) { assert d[k] == s[i + 1 + k]; }
      assert d[1..|d|-1][j - i - 2] == d[j - i - 1];
    }
  }

  /** ValidateEmail decides exactly the regular expression. */
  lemma EmailMatchesPattern(s: string)
    ensures ValidateEmail(s) <==> MatchesEmailPattern(s)
  {
    ValidateEmailFlat(s);
    if ValidateEmail(s) {
      var i, j :| AtAndDot(s, i, j) && EmailCharsExcept(s, i);
      EmailSplitFlat(s, i, j);
    }
    if MatchesEmailPattern(s) {
      var i, j :| EmailSplit(s, i, j);
      EmailSplitFlat(s, i, j);
    }
  }

  /** With an '@' at i: all other characters are in the class exactly when
      there is no whitespace and that '@' is the only one. */
  lemma EmailCharsExceptCount(s: string, i: int)
    requires 0 <= i < |s| && s[i] == '@'
    ensures EmailCharsExcept(s, i) <==> NoSpace(s) && Occurrences(s, '@') == 1
  {
    OccurrencesAround(s, i, '@');
    OccurrencesZero(s[..i], '@');
    OccurrencesZero(s[i+1..], '@');
    if EmailCharsExcept(s, i) {
      var before, after := s[..i], s[i+1..];
      forall k | 0 <= k < |before| ensures before[k] != '@' { assert before[k] == s[k]; }
      forall k | 0 <= k < |after| ensures after[k] != '@' { assert after[k] == s[i + 1 + k]; }
      assert '@' !in before && '@' !in after;
    }
    if NoSpace(s) && Occurrences(s, '@') == 1 {
      forall k | 0 <= k < |s| && k != i
        ensures s[k] != '@'
      {
        if k < i {
          assert s[k] == s[..i][k];
        } else {
          assert s[k] == s[i+1..][k - i - 1];
        }
      }
    }
  }

  /** The accept/reject characterisation: no whitespace anywhere, exactly one
      '@', something before it, and after it a '.' with a character on each
      side. */
  lemma EmailCharacterisation(s: string)
    ensures ValidateEmail(s) <==>
      NoSpace(s) && Occurrences(s, '@') == 1 && exists i, j :: AtAndDot(s, i, j)
  {
    ValidateEmailFlat(s);
    if ValidateEmail(s) {
      var i, j :| AtAndDot(s, i, j) && EmailCharsExcept(s, i);
      EmailCharsExceptCount(s, i);
    }
    if NoSpace(s) && Occurrences(s, '@') == 1 && exists i, j :: AtAndDot(s, i, j) {
      var i, j :| AtAndDot(s, i, j);
      EmailCharsExceptCount(s, i);
      assert AtAndDot(s, i, j) && EmailCharsExcept(s, i);
    }
  }

  /** The rejections the pattern implies: the empty string, any whitespace, no
      '@' at all, two or more '@'. */
  lemma EmailRejections(s: string)
    ensures s == [] ==> !ValidateEmail(s)
    ensures !NoSpace(s) ==> !ValidateEmail(s)
    ensures '@' !in s ==> !ValidateEmail(s)
    ensures Occurrences(s, '@') >= 2 ==> !ValidateEmail(s)
  {
    EmailCharacterisation(s);
    OccurrencesZero(s, '@');
  }

  /** Every local@host.tld-shaped string whose three parts are non-empty
      runs of the class is accepted. */
  lemma EmailAcceptsShape(local: string, host: string, tld: string)
    requires |local| > 0 && |host| > 0 && |tld| > 0
    requires AllEmailChars(local) && AllEmailChars(host) && AllEmailChars(tld)
    ensures ValidateEmail(local + "@" + host + "." + tld)
  {
    var s := local + "@" + host + "." + tld;
    var i, j := |local|, |local| + 1 + |host|;
    assert s[..i] == local && s[i+1..j] == host && s[j+1..] == tld;
    assert EmailSplit(s, i, j);
    EmailMatchesPattern(s);
  }

  // ---------------------------------------------------------------------------
  // formatErrorMessage
  // ---------------------------------------------------------------------------

  /** String.prototype.includes. */
  predicate Includes(s: string, part: string) {
    part <= s || (s != [] && Includes(s[1..], part))
  }

  /** part occurs in s starting at position i. */
  ghost predicate OccursAt(s: string, part: string, i: int) {
    0 <= i && i + |part| <= |s| && s[i..i + |part|] == part
  }

  /** Includes holds exactly when part occurs at some position of s. */
  lemma {:induction false} IncludesAt(s: string, part: string)
    ensures Includes(s, part) <==> exists i :: OccursAt(s, part, i)
  {
    if part <= s {
      assert OccursAt(s, part, 0);
    } else if s != [] {
      IncludesAt(s[1..], part);
      if exists i :: OccursAt(s[1..], part, i) {
        var i :| OccursAt(s[1..], part, i);
        assert s[i + 1..i + 1 + |part|] == s[1..][i..i + |part|];
        assert OccursAt(s, part, i + 1);
      }
      if exists i :: OccursAt(s, part, i) {
        var i :| OccursAt(s, part, i);
        if i != 0 {
          assert s[1..][i - 1..i - 1 + |part|] == s[i..i + |part|];
          assert OccursAt(s[1..], part, i - 1);
        }
      }
    }
  }

  const UserRejected := "User rejected"
  const NetworkError := "Network error"
  const InvalidEmail := "Invalid email"
  const ContractError := "Contract error"

  const CancelledText := "Authentication cancelled by user"
  const NetworkText := "Network error. Please check your connection."
  const InvalidEmailText := "Please enter a valid email address"
  const ContractText := "Contract interaction failed. Please try again."
  const FailedText := "Authentication failed. Please try again."

  /** The five user-facing texts formatErrorMessage can produce. */
  const ErrorTexts: set<string> := {CancelledText, NetworkText, InvalidEmailText, ContractText, FailedText}

  /** formatErrorMessage(error), given error.message. */
  function FormatErrorMessage(message: string): (text: string)
    ensures text in ErrorTexts
  {
    if Includes(message, UserRejected) then CancelledText
    else if Includes(message, NetworkError) then NetworkText
    else if Includes(message, InvalidEmail) then InvalidEmailText
    else if Includes(message, ContractError) then ContractText
    else FailedText
  }

  /** Each text is produced exactly when its phrase is included and no
      phrase earlier in the order is. */
  lemma FormatErrorPriority(message: string)
    ensures FormatErrorMessage(message) == CancelledText <==> Includes(message, UserRejected)
    ensures FormatErrorMessage(message) == NetworkText <==>
      !Includes(message, UserRejected) && Includes(message, NetworkError)
    ensures FormatErrorMessage(message) == InvalidEmailText <==>
      !Includes(message, UserRejected) && !Includes(message, NetworkError)
      && Includes(message, InvalidEmail)
    ensures FormatErrorMessage(message) == ContractText <==>
      !Includes(message, UserRejected) && !Includes(message, NetworkError)
      && !Includes(message, InvalidEmail) && Includes(message, ContractError)
    ensures FormatErrorMessage(message) == FailedText <==>
      !Includes(message, UserRejected) && !Includes(message, NetworkError)
      && !Includes(message, InvalidEmail) && !Includes(message, ContractError)
  {
  }

  /** A phrase anywhere in the message is enough: when both 'User rejected'
      and 'Network error' occur, in either order, the cancellation text wins. */
  lemma FormatErrorFirstPhraseWins(message: string, i: int, j: int)
    requires OccursAt(message, UserRejected, i) && OccursAt(message, NetworkError, j)
    ensures FormatErrorMessage(message) == CancelledText
  {
    IncludesAt(message, UserRejected);
  }

  // ---------------------------------------------------------------------------
  // getStatusColor
  // ---------------------------------------------------------------------------

  const Green := "#4CAF50"
  const Orange := "#FF9800"
  const Red := "#F44336"
  const Blue := "#2196F3"
  const Grey := "#9E9E9E"

  /** The own properties of the statusColors object literal. */
  const StatusColors: map<string, string> :=
    map["connected" := Green, "connecting" := Orange, "error" := Red,
        "ready" := Blue, "disconnected" := Grey]

  /** getStatusColor as intended: a colour for the five statuses, grey for
      every other string. */
  function GetStatusColor(status: string): (color: string)
    ensures color in {Green, Orange, Red, Blue, Grey}
  {
    if status in StatusColors then StatusColors[status] else Grey
  }

  lemma StatusColorTable(status: string)
    ensures GetStatusColor("connected") == Green
    ensures GetStatusColor("connecting") == Orange
    ensures GetStatusColor("error") == Red
    ensures GetStatusColor("ready") == Blue
    ensures GetStatusColor("disconnected") == Grey
    ensures status !in StatusColors ==> GetStatusColor(status) == Grey
    ensures GetStatusColor(status) == Grey <==> status == "disconnected" || status !in StatusColors
  {
  }

  // The code as written indexes a plain object, so a key it does not own is
  // looked up on Object.prototype.

  /** The JavaScript values a property read on statusColors can yield; a
      JsFunction is the inherited method found under `key`. */
  datatype JsValue = JsString(text: string) | JsFunction(key: string) | JsObject | JsUndefined

  /** Methods every plain object inherits from Object.prototype. */
  const ObjectPrototypeMethods: set<string> :=
    {"constructor", "hasOwnProperty", "isPrototypeOf", "propertyIsEnumerable",
     "toLocaleString", "toString", "valueOf", "__defineGetter__",
     "__defineSetter__", "__lookupGetter__", "__lookupSetter__"}

  /** statusColors[key]: own property, else inherited method, else the
      __proto__ accessor (an object), else undefined. */
  function PropertyRead(own: map<string, string>, key: string): JsValue {
    if key in own then JsString(own[key])
    else if key in ObjectPrototypeMethods then JsFunction(key)
    else if key == "__proto__" then JsObject
    else JsUndefined
  }

  predicate Truthy(v: JsValue) {
    match v
    case JsString(t) => t != ""
    case JsFunction(_) => true
    case JsObject => true
    case JsUndefined => false
  }

  /** getStatusColor as written: statusColors[status] || '#9E9E9E'. */
  function GetStatusColorAsWritten(status: string): (v: JsValue)
    ensures Truthy(v)
    ensures status in StatusColors ==> v == JsString(StatusColors[status])
    ensures status !in StatusColors && status !in ObjectPrototypeMethods && status != "__proto__"
      ==> v == JsString(Grey)
  {
    var v := PropertyRead(StatusColors, status);
    if Truthy(v) then v else JsString(Grey)
  }

  /** The code as written agrees with the intended table on every string that
      is not an inherited property name. */
  lemma StatusColorAsWrittenAgrees(status: string)
    requires status !in ObjectPrototypeMethods && status != "__proto__"
    ensures GetStatusColorAsWritten(status) == JsString(GetStatusColor(status))
  {
  }

  /** ... and on an inherited name it yields no colour at all. */
  lemma StatusColorAsWrittenLeaks()
    ensures GetStatusColorAsWritten("toString") == JsFunction("toString")
    ensures GetStatusColorAsWritten("__proto__") == JsObject
    ensures !GetStatusColorAsWritten("toString").JsString?
  {
  }

  // ---------------------------------------------------------------------------
  // sanitizeInput: input.trim().toLowerCase()
  // ---------------------------------------------------------------------------

  /** The first position at or after lo that is not whitespace, or |s|. */
  function SkipSpaceForward(s: string, lo: nat): (i: nat)
    requires lo <= |s|
    ensures lo <= i <= |s|
    ensures forall k :: lo <= k < i ==> IsSpace(s[k])
    ensures i < |s| ==> !IsSpace(s[i])
    decreases |s| - lo
  {
    if lo < |s| && IsSpace(s[lo]) then SkipSpaceForward(s, lo + 1) else lo
  }

  /** The position just after the last non-whitespace character in s[lo..hi],
      or lo. */
  function SkipSpaceBackward(s: string, lo: nat, hi: nat): (j: nat)
    requires lo <= hi <= |s|
    ensures lo <= j <= hi
    ensures forall k :: j <= k < hi ==> IsSpace(s[k])
    ensures j > lo ==> !IsSpace(s[j - 1])
    decreases hi
  {
    if hi > lo && IsSpace(s[hi - 1]) then SkipSpaceBackward(s, lo, hi - 1) else hi
  }

  /** Only whitespace lies outside s[i..j]. */
  predicate SpaceOutside(s: string, i: int, j: int) {
    0 <= i <= j <= |s|
    && (forall k :: 0 <= k < i ==> IsSpace(s[k]))
    && (forall k :: j <= k < |s| ==> IsSpace(s[k]))
  }

  /** Neither the first nor the last character is whitespace. */
  predicate Trimmed(s: string) {
    s == [] || (!IsSpace(s[0]) && !IsSpace(s[|s| - 1]))
  }

  /** String.prototype.trim: s with the whitespace at both ends removed. */
  function Trim(s: string): (r: string)
    ensures exists i, j :: SpaceOutside(s, i, j) && r == s[i..j]
    ensures Trimmed(r)
  {
    var i := SkipSpaceForward(s, 0);
    var j := SkipSpaceBackward(s, i, |s|);
    assert SpaceOutside(s, i, j);
    s[i..j]
  }

  predicate IsUpperAscii(c: char) {
    'A' <= c <= 'Z'
  }

  function LowerAscii(c: char): char {
    if IsUpperAscii(c) then (c as int + 32) as char else c
  }

  /** Lowercasing leaves no upper-case letter and touches no whitespace. */
  lemma LowerAsciiKeepsSpace(c: char)
    ensures !IsUpperAscii(LowerAscii(c))
    ensures IsSpace(LowerAscii(c)) <==> IsSpace(c)
  {
  }

  predicate NoUpperAscii(s: string) {
    forall k :: 0 <= k < |s| ==> !IsUpperAscii(s[k])
  }

  /** toLowerCase on the ASCII letters. */
  function ToLower(s: string): (r: string)
    ensures |r| == |s|
    ensures NoUpperAscii(r)
    ensures forall k :: 0 <= k < |s| ==> (IsSpace(r[k]) <==> IsSpace(s[k]))
    ensures forall k :: 0 <= k < |s| && !IsUpperAscii(s[k]) ==> r[k] == s[k]
    ensures forall k :: 0 <= k < |s| && IsUpperAscii(s[k]) ==>
      r[k] == "abcdefghijklmnopqrstuvwxyz"[s[k] as int - 'A' as int]
  {
    var r := seq(|s|, k requires 0 <= k < |s| => LowerAscii(s[k]));
    assert forall k :: 0 <= k < |s| ==> !IsUpperAscii(r[k]) && (IsSpace(r[k]) <==> IsSpace(s[k])) by {
      forall k | 0 <= k < |s| ensures !IsUpperAscii(r[k]) && (IsSpace(r[k]) <==> IsSpace(s[k])) {
        LowerAsciiKeepsSpace(s[k]);
      }
    }
    r
  }

  /** sanitizeInput. */
  function SanitizeInput(input: string): (r: string)
    ensures |r| <= |input|
    ensures r == [] <==> AllSpace(input)
  {
    ToLower(Trim(input))
  }

  /** The result has no whitespace at either end and no upper-case ASCII
      letter. */
  lemma SanitizeShape(input: string)
    ensures Trimmed(SanitizeInput(input))
    ensures NoUpperAscii(SanitizeInput(input))
  {
    var t := Trim(input);
    var r := ToLower(t);
    assert SanitizeInput(input) == r;
    if r != [] {
      LowerAsciiKeepsSpace(t[0]);
      LowerAsciiKeepsSpace(t[|t| - 1]);
    }
    forall k | 0 <= k < |r|
      ensures !IsUpperAscii(r[k])
    {
      LowerAsciiKeepsSpace(t[k]);
    }
  }

  /** The result is the lower-cased input with only whitespace cut from its
      two ends. */
  lemma SanitizeContents(input: string)
    ensures exists i, j :: SpaceOutside(input, i, j) && SanitizeInput(input) == ToLower(input[i..j])
  {
    var t := Trim(input);
    var i, j :| SpaceOutside(input, i, j) && t == input[i..j];
    assert SanitizeInput(input) == ToLower(input[i..j]);
  }

  lemma TrimOfTrimmed(s: string)
    requires Trimmed(s)
    ensures Trim(s) == s
  {
    assert SkipSpaceForward(s, 0) == 0;
    assert SkipSpaceBackward(s, 0, |s|) == |s|;
    assert s[0..|s|] == s;
  }

  lemma ToLowerIdempotent(s: string)
    ensures ToLower(ToLower(s)) == ToLower(s)
  {
  }

  /** sanitizeInput(sanitizeInput(x)) == sanitizeInput(x). */
  lemma SanitizeIdempotent(input: string)
    ensures SanitizeInput(SanitizeInput(input)) == SanitizeInput(input)
  {
    var t := Trim(input);
    var r := ToLower(t);
    SanitizeShape(input);
    TrimOfTrimmed(r);
    ToLowerIdempotent(t);
  }
}
