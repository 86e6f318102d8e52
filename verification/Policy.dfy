/**
 The PIN policy (pinpolicy.rs), the canonical PIN (pin.rs), and the policy file the flake generates.
 */
module Policy {
  import opened Wrappers
  import opened PinCodec
  import opened PinErrors
  import opened Text

  const U32_LIMIT := 0x1_0000_0000
  const USIZE_LIMIT := 0x1_0000_0000_0000_0000
  const DEFAULT_PINUTIL_PATH := "/usr/bin/pinutil"

  datatype PinPolicy = PinPolicy(
    minLength: nat,
    maxLength: Option<nat>,
    maxAttempts: u32,
    pinutilPath: string,
    tcti: Option<string>)

  const DEFAULT_POLICY := PinPolicy(4, Some(8), 3, DEFAULT_PINUTIL_PATH, None)

  // ---- PINs ----

  /** `PinPolicy::validate`, on a PIN that is already trimmed. Lengths are in bytes. */
  function Validate(policy: PinPolicy, pin: string): Result<(), PinError> {
    if pin == "" then Err(PinIsEmpty)
    else if ByteLen(pin) < policy.minLength then Err(PinTooShort(ByteLen(pin), policy.minLength))
    else if policy.maxLength.Some? && ByteLen(pin) > policy.maxLength.value
    then Err(PinTooLong(ByteLen(pin), policy.maxLength.value))
    else Ok(())
  }

  /** `Pin::new`: trim, then validate. */
  function NewPin(input: string, policy: PinPolicy): Result<string, PinError> {
    var pin := Trim(input);
    if Validate(policy, pin).Err? then Err(Validate(policy, pin).error) else Ok(pin)
  }

  /**
   The length policy is enforced: a PIN is what is left of the input without the white space around it, if that is not
   empty and has between the minimum and, if there is one, the maximum number of bytes; otherwise the error says which.
   */
  lemma NewPinDecides(input: string, policy: PinPolicy)
    ensures var pin, length := Trim(input), ByteLen(Trim(input));
            var tooLong := policy.maxLength.Some? && length > policy.maxLength.value;
            && (NewPin(input, policy).Ok? <==> pin != "" && length >= policy.minLength && !tooLong)
            && (NewPin(input, policy).Ok? ==> NewPin(input, policy).value == pin)
            && (NewPin(input, policy) == Err(PinIsEmpty) <==> pin == "")
            && (pin != "" && length < policy.minLength ==>
                  NewPin(input, policy) == Err(PinTooShort(length, policy.minLength)))
            && (pin != "" && length >= policy.minLength && tooLong ==>
                  NewPin(input, policy) == Err(PinTooLong(length, policy.maxLength.value)))
  {
  }

  /** A text that could have come out of `Pin::new`. */
  predicate IsPin(pin: string, policy: PinPolicy) {
    NewPin(pin, policy) == Ok(pin)
  }

  /** Accepted PINs are trimmed, and accepted again unchanged under the same policy. */
  lemma NewPinIsIdempotent(input: string, policy: PinPolicy)
    ensures NewPin(input, policy).Ok? ==>
              var pin := NewPin(input, policy).value;
              Trimmed(pin) && pin != "" && IsPin(pin, policy)
  {
    var front, back := TrimSplits(input);
    TrimIsUnique("", Trim(input), "");
    assert "" + Trim(input) + "" == Trim(input);
  }

  /** What `read_line` takes from a stream. */
  function FirstLine(stream: string): string {
    if stream == "" then "" else if stream[0] == '\n' then "\n" else [stream[0]] + FirstLine(stream[1..])
  }

  lemma {:induction false} FirstLineOf(text: string)
    ensures '\n' !in text ==> FirstLine(text + "\n") == text + "\n"
    ensures '\n' in text ==> |FirstLine(text + "\n")| <= |text|
  {
    if text != "" {
      assert (text + "\n")[1..] == text[1..] + "\n";
      FirstLineOf(text[1..]);
    }
  }

  /** A PIN crosses the pipe from the PAM module to the helper unchanged exactly when it has no interior newline. */
  lemma PipeRoundTrip(pin: string, policy: PinPolicy)
    requires IsPin(pin, policy)
    ensures NewPin(FirstLine(pin + "\n"), policy) == Ok(pin) <==> '\n' !in pin
  {
    FirstLineOf(pin);
    NewPinIsIdempotent(pin, policy);
    if '\n' !in pin {
      TrimIsUnique("", pin, "\n");
      assert "" + pin + "\n" == pin + "\n";
    } else {
      var line := FirstLine(pin + "\n");
      var front, back := TrimSplits(line);
      FirstLineEndsAtNewline(pin + "\n");
      assert Trim(line) == pin ==> line == pin;
    }
  }

  lemma {:induction false} FirstLineEndsAtNewline(stream: string)
    requires '\n' in stream
    ensures FirstLine(stream) != "" && FirstLine(stream)[|FirstLine(stream)| - 1] == '\n'
  {
    if stream[0] != '\n' {
      FirstLineEndsAtNewline(stream[1..]);
    }
  }

  // ---- The policy file ----

  function WordLength(s: string): nat
    ensures WordLength(s) <= |s|
    ensures s != "" && !IsWhitespace(s[0]) ==> WordLength(s) > 0
  {
    if s == "" || IsWhitespace(s[0]) then 0 else 1 + WordLength(s[1..])
  }

  lemma {:induction false} TrimStartShrinks(s: string)
    ensures |TrimStart(s)| <= |s|
    ensures TrimStart(s) != "" ==> !IsWhitespace(TrimStart(s)[0])
  {
    var front := TrimStartSplits(s);
  }

  /** `split_whitespace`. */
  function SplitWhitespace(s: string): seq<string>
    decreases |s|
  {
    TrimStartShrinks(s);
    var t := TrimStart(s);
    if t == "" then [] else [t[..WordLength(t)]] + SplitWhitespace(t[WordLength(t)..])
  }

  /** `split_once('=')`. */
  function SplitOnce(s: string): Option<(string, string)> {
    if s == "" then None
    else if s[0] == '=' then Some(("", s[1..]))
    else match SplitOnce(s[1..])
      case None => None
      case Some((key, value)) => Some(([s[0]] + key, value))
  }

  /** `str::parse` for an unsigned type that holds the numbers below `limit`: one leading '+' is allowed. */
  function ParseUnsigned(s: string, limit: nat): Option<nat> {
    var digits := if |s| > 1 && s[0] == '+' then s[1..] else s;
    if digits == "" || !AllDigits(digits) || Value(digits) >= limit then None else Some(Value(digits))
  }

  /** What the file system and the TCTI loader say; unknown to the model. */
  datatype Machine = Machine(isFile: string -> bool, knowsTcti: string -> bool)

  predicate PinutilPathOk(m: Machine, value: string) {
    value != "" && value[0] == '/' && m.isFile(value)
  }

  predicate TctiOk(m: Machine, value: string) {
    value != "" && m.knowsTcti(value)
  }

  datatype Field = MinLength | MaxLength | MaxAttempts | PinutilPath | Tcti | Unknown

  function FieldOf(name: string): Field {
    match name
    case "pin_min_length" => MinLength
    case "pin_max_length" => MaxLength
    case "pin_lockout_max_attempts" => MaxAttempts
    case "pinutil_path" => PinutilPath
    case "tcti" => Tcti
    case _ => Unknown
  }

  /** One `key=value` applied to a policy; None is a bad value. Unknown keys are ignored. */
  function Assign(m: Machine, policy: PinPolicy, key: Field, value: string): Option<PinPolicy> {
    match key
    case MinLength =>
      var n := ParseUnsigned(value, USIZE_LIMIT); if n.None? then None else Some(policy.(minLength := n.value))
    case MaxLength =>
      var n := ParseUnsigned(value, USIZE_LIMIT); if n.None? then None else Some(policy.(maxLength := n))
    case MaxAttempts =>
      var n := ParseUnsigned(value, U32_LIMIT); if n.None? then None else Some(policy.(maxAttempts := n.value))
    case PinutilPath => if PinutilPathOk(m, value) then Some(policy.(pinutilPath := value)) else None
    case Tcti => if TctiOk(m, value) then Some(policy.(tcti := Some(value))) else None
    case Unknown => Some(policy)
  }

  /** The policy after the first n tokens; None once a token could not be used. */
  function PolicyAfter(m: Machine, tokens: seq<string>, n: nat): Option<PinPolicy>
    requires n <= |tokens|
  {
    if n == 0 then Some(DEFAULT_POLICY)
    else
      var before, binding := PolicyAfter(m, tokens, n - 1), SplitOnce(tokens[n - 1]);
      if before.None? || binding.None? then None
      else Assign(m, before.value, FieldOf(binding.value.0), binding.value.1)
  }

  lemma {:induction false} FailureIsFinal(m: Machine, tokens: seq<string>, n: nat, later: nat)
    requires n <= later <= |tokens| && PolicyAfter(m, tokens, n).None?
    ensures PolicyAfter(m, tokens, later).None?
  {
    if n < later {
      FailureIsFinal(m, tokens, n, later - 1);
    }
  }

  method ParseTokens(m: Machine, tokens: seq<string>) returns (r: Option<PinPolicy>)
    ensures r == PolicyAfter(m, tokens, |tokens|)
  {
    var policy := DEFAULT_POLICY;
    var i := 0;
    while i < |tokens|
      invariant 0 <= i <= |tokens|
      invariant PolicyAfter(m, tokens, i) == Some(policy)
    {
      var binding := SplitOnce(tokens[i]);
      if binding.None? {
        FailureIsFinal(m, tokens, i + 1, |tokens|);
        return None;
      }
      var changed := Assign(m, policy, FieldOf(binding.value.0), binding.value.1);
      if changed.None? {
        FailureIsFinal(m, tokens, i + 1, |tokens|);
        return None;
      }
      policy := changed.value;
      i := i + 1;
    }
    r := Some(policy);
  }

  /** `parse_config`: a loop over the tokens that stops at the first one it cannot use yields what the text declares. */
  method ParseConfig(m: Machine, config: string) returns (r: Option<PinPolicy>)
    ensures r == DeclaredPolicy(m, SplitWhitespace(config))
  {
    var tokens := SplitWhitespace(config);
    r := ParseTokens(m, tokens);
    ParsingIsDeclaring(m, tokens, |tokens|);
    assert tokens[..|tokens|] == tokens;
  }

  // ---- What a policy file declares ----

  predicate NumberOk(value: string, limit: nat) {
    ParseUnsigned(value, limit).Some?
  }

  predicate ValueOk(m: Machine, key: Field, value: string) {
    match key
    case MinLength => NumberOk(value, USIZE_LIMIT)
    case MaxLength => NumberOk(value, USIZE_LIMIT)
    case MaxAttempts => NumberOk(value, U32_LIMIT)
    case PinutilPath => PinutilPathOk(m, value)
    case Tcti => TctiOk(m, value)
    case Unknown => true
  }

  /** A token the parser can use, wherever it stands. */
  predicate TokenOk(m: Machine, token: string) {
    SplitOnce(token).Some? && ValueOk(m, FieldOf(SplitOnce(token).value.0), SplitOnce(token).value.1)
  }

  predicate Binds(token: string, key: Field) {
    SplitOnce(token).Some? && FieldOf(SplitOnce(token).value.0) == key
  }

  /** The value of the last token that binds a key. */
  function LastBinding(tokens: seq<string>, key: Field): Option<string> {
    if tokens == [] then None
    else if Binds(tokens[|tokens| - 1], key) then Some(SplitOnce(tokens[|tokens| - 1]).value.1)
    else LastBinding(tokens[..|tokens| - 1], key)
  }

  function NumberOr(value: Option<string>, limit: nat, default: nat): nat
    requires default < limit
    ensures NumberOr(value, limit, default) < limit
  {
    if value.Some? && NumberOk(value.value, limit) then ParseUnsigned(value.value, limit).value else default
  }

  /** Each field is its last binding, or the default. */
  function LastBindings(tokens: seq<string>): PinPolicy {
    PinPolicy(
      NumberOr(LastBinding(tokens, MinLength), USIZE_LIMIT, 4),
      Some(NumberOr(LastBinding(tokens, MaxLength), USIZE_LIMIT, 8)),
      NumberOr(LastBinding(tokens, MaxAttempts), U32_LIMIT, 3),
      if LastBinding(tokens, PinutilPath).Some? then LastBinding(tokens, PinutilPath).value else DEFAULT_PINUTIL_PATH,
      LastBinding(tokens, Tcti))
  }

  /** It is the last one: no token from position k on binds the key, and the one before it, if any, gives the value. */
  lemma {:induction false} LastBindingIsLast(tokens: seq<string>, key: Field) returns (k: nat)
    ensures k <= |tokens| && forall later | k <= later < |tokens| :: !Binds(tokens[later], key)
    ensures if k == 0 then LastBinding(tokens, key).None?
            else Binds(tokens[k - 1], key) && LastBinding(tokens, key) == Some(SplitOnce(tokens[k - 1]).value.1)
  {
    if tokens == [] || Binds(tokens[|tokens| - 1], key) {
      k := |tokens|;
    } else {
      var front := tokens[..|tokens| - 1];
      k := LastBindingIsLast(front, key);
      assert forall later | k <= later < |front| :: tokens[later] == front[later];
    }
  }

  lemma LastBindingStep(tokens: seq<string>, n: nat, key: Field)
    requires n < |tokens|
    ensures LastBinding(tokens[..n + 1], key) ==
            if Binds(tokens[n], key) then Some(SplitOnce(tokens[n]).value.1) else LastBinding(tokens[..n], key)
  {
    assert tokens[..n + 1][..n] == tokens[..n];
  }

  /** Using one more token is what it does to the last bindings. */
  lemma AssignIsLastBinding(m: Machine, tokens: seq<string>, n: nat)
    requires n < |tokens| && SplitOnce(tokens[n]).Some?
    ensures var (key, value) := SplitOnce(tokens[n]).value;
            Assign(m, LastBindings(tokens[..n]), FieldOf(key), value) ==
            if TokenOk(m, tokens[n]) then Some(LastBindings(tokens[..n + 1])) else None
  {
    LastBindingStep(tokens, n, MinLength);
    LastBindingStep(tokens, n, MaxLength);
    LastBindingStep(tokens, n, MaxAttempts);
    LastBindingStep(tokens, n, PinutilPath);
    LastBindingStep(tokens, n, Tcti);
  }

  /** `TokenOk`, stated so that proofs open it only where they mention it. */
  ghost predicate IsUsable(m: Machine, token: string) {
    forall t :: t == token ==> TokenOk(m, t)
  }

  ghost predicate Usable(m: Machine, tokens: seq<string>) {
    forall k | 0 <= k < |tokens| :: IsUsable(m, tokens[k])
  }

  /** A policy file is rejected when any of its tokens is unusable; otherwise it declares its last bindings. */
  ghost function DeclaredPolicy(m: Machine, tokens: seq<string>): Option<PinPolicy> {
    if Usable(m, tokens) then Some(LastBindings(tokens)) else None
  }

  /** Nothing declared: the built-in policy. */
  lemma NothingDeclared(m: Machine)
    ensures DeclaredPolicy(m, []) == Some(PinPolicy(4, Some(8), 3, "/usr/bin/pinutil", None))
  {
  }

  lemma UsableValue(m: Machine, tokens: seq<string>, key: Field)
    requires Usable(m, tokens) && LastBinding(tokens, key).Some?
    ensures ValueOk(m, key, LastBinding(tokens, key).value)
  {
    var k := LastBindingIsLast(tokens, key);
    assert IsUsable(m, tokens[k - 1]);
    assert TokenOk(m, tokens[k - 1]);
  }

  /**
   A policy that was parsed can be trusted: its helper is the default one or an absolute path to a file, its TCTI one
   the loader knows, and its numbers fit their types.
   */
  lemma DeclaredPoliciesAreSound(m: Machine, tokens: seq<string>)
    requires DeclaredPolicy(m, tokens).Some?
    ensures var policy := DeclaredPolicy(m, tokens).value;
            && (policy.pinutilPath == "/usr/bin/pinutil"
                || (policy.pinutilPath != "" && policy.pinutilPath[0] == '/' && m.isFile(policy.pinutilPath)))
            && (policy.tcti.Some? ==> policy.tcti.value != "" && m.knowsTcti(policy.tcti.value))
            && policy.minLength < 0x1_0000_0000_0000_0000
            && policy.maxLength.Some? && policy.maxLength.value < 0x1_0000_0000_0000_0000
  {
    if LastBinding(tokens, PinutilPath).Some? {
      UsableValue(m, tokens, PinutilPath);
    }
    if LastBinding(tokens, Tcti).Some? {
      UsableValue(m, tokens, Tcti);
    }
  }

  /** The tokens of a longer prefix are usable if the shorter one's are and the next one is. */
  lemma UsableStep(m: Machine, tokens: seq<string>, n: nat)
    requires n < |tokens|
    ensures Usable(m, tokens[..n + 1]) <==> Usable(m, tokens[..n]) && IsUsable(m, tokens[n])
  {
    var all, front := tokens[..n + 1], tokens[..n];
    if Usable(m, all) {
      forall k | 0 <= k < n
        ensures IsUsable(m, front[k])
      {
        assert IsUsable(m, all[k]);
      }
      assert IsUsable(m, all[n]);
    } else if Usable(m, front) && IsUsable(m, tokens[n]) {
      forall k | 0 <= k <= n
        ensures IsUsable(m, all[k])
      {
        assert k < n ==> IsUsable(m, front[k]);
      }
    }
  }

  lemma DeclaredStep(m: Machine, tokens: seq<string>, n: nat)
    requires n < |tokens|
    ensures var before, binding := DeclaredPolicy(m, tokens[..n]), SplitOnce(tokens[n]);
            DeclaredPolicy(m, tokens[..n + 1]) ==
            if before.None? || binding.None? then None
            else Assign(m, before.value, FieldOf(binding.value.0), binding.value.1)
  {
    UsableStep(m, tokens, n);
    assert IsUsable(m, tokens[n]) <==> TokenOk(m, tokens[n]);
    if SplitOnce(tokens[n]).Some? {
      AssignIsLastBinding(m, tokens, n);
    }
  }

  /** Going through the tokens in order computes what they declare. */
  lemma {:induction false} ParsingIsDeclaring(m: Machine, tokens: seq<string>, n: nat)
    requires n <= |tokens|
    ensures PolicyAfter(m, tokens, n) == DeclaredPolicy(m, tokens[..n])
  {
    if n > 0 {
      ParsingIsDeclaring(m, tokens, n - 1);
      DeclaredStep(m, tokens, n - 1);
    }
  }

  /** No text declares an unlimited PIN length: there is always an upper bound. */
  lemma EveryDeclaredPolicyHasAMaximum(m: Machine, config: string)
    ensures DeclaredPolicy(m, SplitWhitespace(config)).Some? ==>
              DeclaredPolicy(m, SplitWhitespace(config)).value.maxLength.Some?
  {
  }

  // ---- The file the flake writes ----

  function Digit(n: nat): char
    requires n < 10
  {
    '0' + n as char
  }

  /** `toString` on a natural number. */
  function Decimal(n: nat): string {
    if n < 10 then [Digit(n)] else Decimal(n / 10) + [Digit(n % 10)]
  }

  lemma {:induction false} DecimalParses(n: nat, limit: nat)
    ensures AllDigits(Decimal(n)) && Decimal(n) != "" && Value(Decimal(n)) == n
    ensures ParseUnsigned(Decimal(n), limit) == if n < limit then Some(n) else None
  {
    if n < 10 {
      assert Decimal(n)[..0] == "";
    } else {
      DecimalParses(n / 10, limit);
      var s := Decimal(n);
      assert s[..|s| - 1] == Decimal(n / 10);
    }
  }

  /** What the flake asks for, in the order it prints it; no maximum length, no line. */
  function FlakeSettings(minLength: nat, maxLength: Option<nat>, maxAttempts: nat, pinutilPath: string)
    : seq<(string, string)>
  {
    [("pin_min_length", Decimal(minLength))]
    + (if maxLength.Some? then [("pin_max_length", Decimal(maxLength.value))] else [])
    + [("pin_lockout_max_attempts", Decimal(maxAttempts)), ("pinutil_path", pinutilPath)]
  }

  function SettingLines(settings: seq<(string, string)>): seq<string> {
    if settings == [] then []
    else
      var (key, value) := settings[|settings| - 1];
      SettingLines(settings[..|settings| - 1]) + [key + "=" + value]
  }

  /** Every line ended by a newline: the lines and an empty one, joined by newlines. */
  function JoinLines(lines: seq<string>): string {
    if lines == [] then "" else lines[0] + "\n" + JoinLines(lines[1..])
  }

  predicate IsWord(s: string) {
    s != "" && forall i | 0 <= i < |s| :: !IsWhitespace(s[i])
  }

  lemma {:induction false} WordLengthOf(word: string, rest: string)
    requires forall i | 0 <= i < |word| :: !IsWhitespace(word[i])
    requires rest != "" && IsWhitespace(rest[0])
    ensures WordLength(word + rest) == |word|
  {
    if word != "" {
      assert (word + rest)[1..] == word[1..] + rest;
      WordLengthOf(word[1..], rest);
    } else {
      assert word + rest == rest;
    }
  }

  /** Splitting peels off a word at a time, whatever white space stands before and after it. */
  lemma {:induction false} WordsAreTokens(front: string, word: string, rest: string)
    requires AllWhitespace(front) && IsWord(word) && (rest != "" ==> IsWhitespace(rest[0]))
    ensures SplitWhitespace(front) == []
    ensures SplitWhitespace(front + word + rest) == [word] + SplitWhitespace(rest)
    decreases |front|
  {
    var text := front + word + rest;
    if front != "" {
      WordsAreTokens(front[1..], word, rest);
      assert text[1..] == front[1..] + word + rest;
      assert TrimStart(text) == TrimStart(text[1..]) && TrimStart(front) == TrimStart(front[1..]);
    } else {
      assert text == word + rest && TrimStart(text) == text;
      if rest != "" {
        WordLengthOf(word, rest);
      } else {
        WholeWord(word);
        assert text == word;
      }
      assert text[..|word|] == word && text[|word|..] == rest;
    }
  }

  lemma {:induction false} WholeWord(word: string)
    requires NoWhitespace(word)
    ensures WordLength(word) == |word|
  {
    if word != "" {
      WholeWord(word[1..]);
    }
  }

  lemma {:induction false} LinesAreTokens(lines: seq<string>)
    requires forall k | 0 <= k < |lines| :: IsWord(lines[k])
    ensures SplitWhitespace(JoinLines(lines)) == lines
    ensures SplitWhitespace("\n" + JoinLines(lines)) == lines
  {
    var text := JoinLines(lines);
    assert ("\n" + text)[1..] == text;
    assert TrimStart("\n" + text) == TrimStart(text);
    if lines != [] {
      var word, rest := lines[0], "\n" + JoinLines(lines[1..]);
      assert text == word + rest;
      assert text[0] == word[0];
      WordLengthOf(word, rest);
      assert text[..|word|] == word && text[|word|..] == rest;
      LinesAreTokens(lines[1..]);
    }
  }

  /** The split is at the first '='. */
  lemma {:induction false} SplitOnceIsFirst(s: string)
    ensures SplitOnce(s).None? <==> '=' !in s
    ensures SplitOnce(s).Some? ==>
              '=' !in SplitOnce(s).value.0 && s == SplitOnce(s).value.0 + "=" + SplitOnce(s).value.1
  {
    if s != "" && s[0] != '=' {
      SplitOnceIsFirst(s[1..]);
      assert s == [s[0]] + s[1..];
      if SplitOnce(s).Some? {
        var (key, value) := SplitOnce(s[1..]).value;
        assert [s[0]] + (key + "=" + value) == [s[0]] + key + "=" + value;
      }
    } else if s != "" {
      assert s == "" + "=" + s[1..];
    }
  }

  lemma {:induction false} SplitOnceOf(key: string, value: string)
    requires '=' !in key
    ensures SplitOnce(key + "=" + value) == Some((key, value))
  {
    if key == "" {
      assert key + "=" + value == "=" + value;
      assert ("=" + value)[1..] == value;
    } else {
      assert (key + "=" + value)[1..] == key[1..] + "=" + value;
      SplitOnceOf(key[1..], value);
      assert [key[0]] + key[1..] == key;
    }
  }

  predicate NoWhitespace(s: string) {
    forall i | 0 <= i < |s| :: !IsWhitespace(s[i])
  }

  predicate IsSetting(setting: (string, string)) {
    setting.0 != "" && NoWhitespace(setting.0) && '=' !in setting.0 && NoWhitespace(setting.1)
  }

  /** Decimal digits, perhaps behind one '+', are the number they denote if the type holds it; nothing else is one. */
  lemma UnsignedParses(digits: string, limit: nat)
    ensures digits != "" && AllDigits(digits) ==>
              && ParseUnsigned(digits, limit) == (if Value(digits) < limit then Some(Value(digits)) else None)
              && ParseUnsigned("+" + digits, limit) == ParseUnsigned(digits, limit)
    ensures ParseUnsigned("", limit).None? && ParseUnsigned("+", limit).None?
    ensures !AllDigits(digits) ==>
              && ParseUnsigned("+" + digits, limit).None?
              && (digits[0] != '+' ==> ParseUnsigned(digits, limit).None?)
  {
    assert ("+" + digits)[1..] == digits;
    assert !IsDigit("+"[0]);
  }

  lemma OneToken(m: Machine, key: string, value: string)
    requires IsWord(key) && '=' !in key && NoWhitespace(value)
    ensures DeclaredPolicy(m, SplitWhitespace(key + "=" + value)) == Assign(m, DEFAULT_POLICY, FieldOf(key), value)
  {
    var token := key + "=" + value;
    WordsAreTokens("", token, "");
    assert "" + token + "" == token && [token] + SplitWhitespace("") == [token];
    SplitOnceOf(key, value);
    NothingDeclared(m);
    DeclaredStep(m, [token], 0);
    assert [token][..0] == [] && [token][..1] == [token];
  }

  lemma FieldNames(key: string)
    ensures key == "pin_min_length" ==> FieldOf(key) == MinLength
    ensures key == "pin_max_length" ==> FieldOf(key) == MaxLength
    ensures key == "pin_lockout_max_attempts" ==> FieldOf(key) == MaxAttempts
    ensures key == "pinutil_path" ==> FieldOf(key) == PinutilPath
    ensures key == "tcti" ==> FieldOf(key) == Tcti
    ensures key !in ["pin_min_length", "pin_max_length", "pin_lockout_max_attempts", "pinutil_path", "tcti"] ==>
              FieldOf(key) == Unknown
  {
  }

  lemma NoSetting(m: Machine, key: string)
    requires IsWord(key) && '=' !in key
    ensures DeclaredPolicy(m, SplitWhitespace(key)).None?
  {
    WordsAreTokens("", key, "");
    assert "" + key + "" == key && [key] + SplitWhitespace("") == [key];
    SplitOnceIsFirst(key);
    assert !IsUsable(m, [key][0]) by {
      assert !TokenOk(m, key);
    }
  }

  /** What each setting means on its own; a key nobody knows means nothing, and a word without '=' is an error. */
  lemma OneSettingDeclares(m: Machine, key: string, value: string)
    requires IsWord(key) && '=' !in key && NoWhitespace(value)
    ensures var declared := DeclaredPolicy(m, SplitWhitespace(key + "=" + value));
            var n, n32 := ParseUnsigned(value, 0x1_0000_0000_0000_0000), ParseUnsigned(value, 0x1_0000_0000);
            && (key == "pin_min_length" ==>
                  declared == if n.None? then None else Some(DEFAULT_POLICY.(minLength := n.value)))
            && (key == "pin_max_length" ==>
                  declared == if n.None? then None else Some(DEFAULT_POLICY.(maxLength := n)))
            && (key == "pin_lockout_max_attempts" ==>
                  declared == if n32.None? then None else Some(DEFAULT_POLICY.(maxAttempts := n32.value)))
            && (key == "pinutil_path" ==>
                  declared == if value != "" && value[0] == '/' && m.isFile(value)
                              then Some(DEFAULT_POLICY.(pinutilPath := value)) else None)
            && (key == "tcti" ==>
                  declared == if value != "" && m.knowsTcti(value) then Some(DEFAULT_POLICY.(tcti := Some(value)))
                              else None)
            && (key !in ["pin_min_length", "pin_max_length", "pin_lockout_max_attempts", "pinutil_path", "tcti"] ==>
                  declared == Some(DEFAULT_POLICY))
    ensures DeclaredPolicy(m, SplitWhitespace(key)).None?
  {
    OneToken(m, key, value);
    FieldNames(key);
    NoSetting(m, key);
  }

  function LastValue(settings: seq<(string, string)>, key: Field): Option<string> {
    if settings == [] then None
    else if FieldOf(settings[|settings| - 1].0) == key then Some(settings[|settings| - 1].1)
    else LastValue(settings[..|settings| - 1], key)
  }

  /** Printed settings are words that bind what they were printed from. */
  lemma {:induction false} SettingLinesBind(settings: seq<(string, string)>, key: Field)
    requires forall k | 0 <= k < |settings| :: IsSetting(settings[k])
    ensures |SettingLines(settings)| == |settings|
    ensures forall k | 0 <= k < |settings| ::
              IsWord(SettingLines(settings)[k]) && SplitOnce(SettingLines(settings)[k]) == Some(settings[k])
    ensures LastBinding(SettingLines(settings), key) == LastValue(settings, key)
  {
    if settings != [] {
      var rest := settings[..|settings| - 1];
      var (name, value) := settings[|settings| - 1];
      assert IsSetting(settings[|settings| - 1]);
      SettingLinesBind(rest, key);
      SplitOnceOf(name, value);
      var lines := SettingLines(settings);
      assert lines[..|lines| - 1] == SettingLines(rest);
    }
  }

  lemma NumberKeysAreSettings(value: string)
    requires NoWhitespace(value)
    ensures IsSetting(("pin_min_length", value)) && IsSetting(("pin_max_length", value))
  {
  }

  lemma KeysAreSettings(value: string)
    requires NoWhitespace(value)
    ensures IsSetting(("pin_min_length", value)) && IsSetting(("pin_max_length", value))
    ensures IsSetting(("pin_lockout_max_attempts", value)) && IsSetting(("pinutil_path", value))
  {
    NumberKeysAreSettings(value);
  }

  lemma DecimalIsNotSpace(n: nat)
    ensures NoWhitespace(Decimal(n))
  {
    DecimalParses(n, 0);
  }

  lemma FlakeSettingsAreSettings(minLength: nat, maxLength: Option<nat>, maxAttempts: nat, pinutilPath: string)
    requires NoWhitespace(pinutilPath)
    ensures var settings := FlakeSettings(minLength, maxLength, maxAttempts, pinutilPath);
            forall k | 0 <= k < |settings| :: IsSetting(settings[k])
  {
    DecimalIsNotSpace(minLength);
    DecimalIsNotSpace(maxAttempts);
    KeysAreSettings(Decimal(minLength));
    KeysAreSettings(Decimal(maxAttempts));
    KeysAreSettings(pinutilPath);
    if maxLength.Some? {
      DecimalIsNotSpace(maxLength.value);
      KeysAreSettings(Decimal(maxLength.value));
    }
  }

  lemma LastValueStep(settings: seq<(string, string)>, last: (string, string), key: Field)
    ensures LastValue(settings + [last], key) == if FieldOf(last.0) == key
            then Some(last.1) else LastValue(settings, key)
  {
    assert (settings + [last])[..|settings|] == settings;
  }

  /** The last values of what the flake prints. */
  lemma FlakeLastValues(minLength: nat, maxLength: Option<nat>, maxAttempts: nat, pinutilPath: string, key: Field)
    ensures LastValue(FlakeSettings(minLength, maxLength, maxAttempts, pinutilPath), key) ==
            if key == PinutilPath then Some(pinutilPath)
            else if key == MaxAttempts then Some(Decimal(maxAttempts))
            else if key == MaxLength && maxLength.Some? then Some(Decimal(maxLength.value))
            else if key == MinLength then Some(Decimal(minLength))
            else None
  {
    var s0: seq<(string, string)> := [];
    var s1 := s0 + [("pin_min_length", Decimal(minLength))];
    var s2 := if maxLength.Some? then s1 + [("pin_max_length", Decimal(maxLength.value))] else s1;
    var s3 := s2 + [("pin_lockout_max_attempts", Decimal(maxAttempts))];
    LastValueStep(s0, ("pin_min_length", Decimal(minLength)), key);
    if maxLength.Some? {
      LastValueStep(s1, ("pin_max_length", Decimal(maxLength.value)), key);
    }
    LastValueStep(s2, ("pin_lockout_max_attempts", Decimal(maxAttempts)), key);
    LastValueStep(s3, ("pinutil_path", pinutilPath), key);
    assert FlakeSettings(minLength, maxLength, maxAttempts, pinutilPath) == s3 + [("pinutil_path", pinutilPath)];
  }

  /** The text the flake writes to the policy file. */
  function FlakeText(minLength: nat, maxLength: Option<nat>, maxAttempts: nat, pinutilPath: string): string {
    JoinLines(SettingLines(FlakeSettings(minLength, maxLength, maxAttempts, pinutilPath)))
  }

  /** The tokens of that text are its lines, and each field's last binding is what was asked for. */
  lemma FlakeTextBinds(minLength: nat, maxLength: Option<nat>, maxAttempts: nat, pinutilPath: string, key: Field)
    requires IsWord(pinutilPath)
    ensures var settings := FlakeSettings(minLength, maxLength, maxAttempts, pinutilPath);
            var tokens := SplitWhitespace(FlakeText(minLength, maxLength, maxAttempts, pinutilPath));
            && |tokens| == |settings|
            && (forall k | 0 <= k < |tokens| :: SplitOnce(tokens[k]) == Some(settings[k]))
            && LastBinding(tokens, key) == LastValue(settings, key)
  {
    var settings := FlakeSettings(minLength, maxLength, maxAttempts, pinutilPath);
    FlakeSettingsAreSettings(minLength, maxLength, maxAttempts, pinutilPath);
    SettingLinesBind(settings, key);
    LinesAreTokens(SettingLines(settings));
  }

  lemma LengthTokenOk(m: Machine, token: string, value: string)
    requires SplitOnce(token) == Some(("pin_min_length", value)) || SplitOnce(token) == Some(("pin_max_length", value))
    ensures TokenOk(m, token) <==> NumberOk(value, USIZE_LIMIT)
  {
  }

  lemma AttemptsTokenOk(m: Machine, token: string, value: string)
    requires SplitOnce(token) == Some(("pin_lockout_max_attempts", value))
    ensures TokenOk(m, token) <==> NumberOk(value, U32_LIMIT)
  {
  }

  lemma PathTokenOk(m: Machine, token: string, value: string)
    requires SplitOnce(token) == Some(("pinutil_path", value))
    ensures TokenOk(m, token) <==> PinutilPathOk(m, value)
  {
  }

  lemma FlakeTokensOk(m: Machine, minLength: nat, maxLength: Option<nat>, maxAttempts: nat, pinutilPath: string)
    requires IsWord(pinutilPath) && PinutilPathOk(m, pinutilPath)
    requires minLength < USIZE_LIMIT && (maxLength.Some? ==> maxLength.value < USIZE_LIMIT)
    ensures var tokens := SplitWhitespace(FlakeText(minLength, maxLength, maxAttempts, pinutilPath));
            Usable(m, tokens) <==> maxAttempts < U32_LIMIT
  {
    var tokens := SplitWhitespace(FlakeText(minLength, maxLength, maxAttempts, pinutilPath));
    FlakeTextBinds(minLength, maxLength, maxAttempts, pinutilPath, Unknown);
    DecimalParses(minLength, USIZE_LIMIT);
    LengthTokenOk(m, tokens[0], Decimal(minLength));
    if maxLength.Some? {
      DecimalParses(maxLength.value, USIZE_LIMIT);
      LengthTokenOk(m, tokens[1], Decimal(maxLength.value));
    }
    DecimalParses(maxAttempts, U32_LIMIT);
    AttemptsTokenOk(m, tokens[|tokens| - 2], Decimal(maxAttempts));
    PathTokenOk(m, tokens[|tokens| - 1], pinutilPath);
    assert |tokens| == if maxLength.Some? then 4 else 3;
    forall k | 0 <= k < |tokens|
      ensures IsUsable(m, tokens[k]) <==> TokenOk(m, tokens[k])
    {
      assert IsUsable(m, tokens[k]) ==> TokenOk(m, tokens[k]);
    }
  }

  /**
   The generated policy file, parsed back: it is rejected when the number of attempts does not fit 32 bits, and an
   unlimited PIN length (`maxLength = null`) comes back as the default maximum of 8. It declares what was asked
   for exactly when the attempts fit and a maximum length was given.
   */
  lemma FlakePolicyRoundTrip(m: Machine, minLength: nat, maxLength: Option<nat>, maxAttempts: nat, pinutilPath: string)
    requires IsWord(pinutilPath) && PinutilPathOk(m, pinutilPath)
    requires minLength < USIZE_LIMIT && (maxLength.Some? ==> maxLength.value < USIZE_LIMIT)
    ensures var r := DeclaredPolicy(m, SplitWhitespace(FlakeText(minLength, maxLength, maxAttempts, pinutilPath)));
            && (r.Some? <==> maxAttempts < U32_LIMIT)
            && (r.Some? ==> r.value.minLength == minLength && r.value.maxAttempts == maxAttempts
                            && r.value.pinutilPath == pinutilPath && r.value.tcti.None?
                            && r.value.maxLength == if maxLength.Some? then maxLength else Some(8))
            && ((r.Some? && r.value.maxLength == maxLength) <==> (maxAttempts < U32_LIMIT && maxLength.Some?))
  {
    FlakeTokensOk(m, minLength, maxLength, maxAttempts, pinutilPath);
    FlakeField(minLength, maxLength, maxAttempts, pinutilPath, MinLength);
    FlakeField(minLength, maxLength, maxAttempts, pinutilPath, MaxLength);
    FlakeField(minLength, maxLength, maxAttempts, pinutilPath, MaxAttempts);
    FlakeField(minLength, maxLength, maxAttempts, pinutilPath, PinutilPath);
    FlakeField(minLength, maxLength, maxAttempts, pinutilPath, Tcti);
    DecimalParses(minLength, USIZE_LIMIT);
    DecimalParses(maxAttempts, U32_LIMIT);
    if maxLength.Some? {
      DecimalParses(maxLength.value, USIZE_LIMIT);
    }
  }

  lemma FlakeField(minLength: nat, maxLength: Option<nat>, maxAttempts: nat, pinutilPath: string, key: Field)
    requires IsWord(pinutilPath)
    ensures LastBinding(SplitWhitespace(FlakeText(minLength, maxLength, maxAttempts, pinutilPath)), key) ==
            if key == PinutilPath then Some(pinutilPath)
            else if key == MaxAttempts then Some(Decimal(maxAttempts))
            else if key == MaxLength && maxLength.Some? then Some(Decimal(maxLength.value))
            else if key == MinLength then Some(Decimal(minLength))
            else None
  {
    FlakeTextBinds(minLength, maxLength, maxAttempts, pinutilPath, key);
    FlakeLastValues(minLength, maxLength, maxAttempts, pinutilPath, key);
  }
}
