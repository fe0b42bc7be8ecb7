/** Credential loading of src/config/mod.rs. The two environment variables
    are inputs: `None` is a variable that is not set. */
module Config {
  import opened Wrappers
  import opened Strings

  const UsernameVar := "OPENSRS_USERNAME"
  const CredentialVar := "OPENSRS_CREDENTIAL"

  /** The OpenSRS API credentials. */
  datatype Credentials = Credentials(username: string, credential: string)

  /** The configuration errors. */
  datatype ConfigError = MissingEnvVar(name: string) | Invalid(message: string)

  /** What an error carries: the variable's name or the reason. */
  function Detail(e: ConfigError): string {
    match e
    case MissingEnvVar(name) => name
    case Invalid(message) => message
  }

  /** The text each error displays: a fixed text for its kind, then its detail. */
  function Message(e: ConfigError): (m: string)
    ensures |Detail(e)| < |m| && m[|m| - |Detail(e)|..] == Detail(e)
    ensures m[0] == (if e.MissingEnvVar? then 'M' else 'I')
  {
    match e
    case MissingEnvVar(name) => "Missing required environment variable: " + name
    case Invalid(message) => "Invalid configuration: " + message
  }

  /** Different errors display differently, so the text tells the kind and
      the detail of an error. */
  lemma MessageInjective(a: ConfigError, b: ConfigError)
    ensures Message(a) == Message(b) <==> a == b
  {
    if Message(a) == Message(b) {
      var m := Message(a);
      assert a.MissingEnvVar? == b.MissingEnvVar?;
      var n := if a.MissingEnvVar? then |"Missing required environment variable: "| else |"Invalid configuration: "|;
      assert |Detail(a)| == |m| - n == |Detail(b)|;
      assert Detail(a) == m[n..] == Detail(b);
    }
  }

  /** `OpenSrsCredentials::from_env`: the username must be set, then the
      credential must be set, then neither may be blank; the result holds the
      trimmed values. */
  function FromEnv(username: Option<string>, credential: Option<string>): (r: Result<Credentials, ConfigError>)
    ensures username.None? ==> r == Failure(MissingEnvVar(UsernameVar))
    ensures username.Some? && credential.None? ==> r == Failure(MissingEnvVar(CredentialVar))
    ensures username.Some? && credential.Some? && AllWhitespace(username.value) ==>
              r == Failure(Invalid("OPENSRS_USERNAME cannot be empty"))
    ensures username.Some? && credential.Some? && !AllWhitespace(username.value) && AllWhitespace(credential.value) ==>
              r == Failure(Invalid("OPENSRS_CREDENTIAL cannot be empty"))
    ensures r.Success? <==>
              username.Some? && credential.Some? && !AllWhitespace(username.value) && !AllWhitespace(credential.value)
    ensures r.Success? ==> r.value == Credentials(Trim(username.value), Trim(credential.value))
  {
    match username
    case None => Failure(MissingEnvVar(UsernameVar))
    case Some(u) =>
      match credential
      case None => Failure(MissingEnvVar(CredentialVar))
      case Some(c) =>
        TrimEmptyIff(u);
        TrimEmptyIff(c);
        if Trim(u) == [] then Failure(Invalid("OPENSRS_USERNAME cannot be empty"))
        else if Trim(c) == [] then Failure(Invalid("OPENSRS_CREDENTIAL cannot be empty"))
        else Success(Credentials(Trim(u), Trim(c)))
  }

  /** A non-empty text with no surrounding whitespace, which trimming keeps. */
  predicate Trimmed(t: string) {
    t != [] && !IsWhitespace(t[0]) && !IsWhitespace(t[|t| - 1]) && Trim(t) == t
  }

  /** Loaded credentials are non-empty and carry no surrounding whitespace;
      they are what is left of the variables once trimmed. */
  lemma LoadedCredentialsAreTrimmed(username: Option<string>, credential: Option<string>)
    requires FromEnv(username, credential).Success?
    ensures var creds := FromEnv(username, credential).value;
      Trimmed(creds.username) && Trimmed(creds.credential)
  {
    TrimmedValue(username.value);
    TrimmedValue(credential.value);
  }

  /** What is left of a value that is not all whitespace once trimmed. */
  lemma TrimmedValue(s: string)
    requires !AllWhitespace(s)
    ensures Trimmed(Trim(s))
  {
    TrimEmptyIff(s);
    TrimIsCore(s);
    TrimIdempotent(s);
  }

  /** `OpenSrsCredentials::available`: both variables are set, whatever they hold. */
  function Available(username: Option<string>, credential: Option<string>): (b: bool)
    ensures b <==> FromEnv(username, credential) != Failure(MissingEnvVar(UsernameVar))
                   && FromEnv(username, credential) != Failure(MissingEnvVar(CredentialVar))
  {
    username.Some? && credential.Some?
  }

  /** Loading only succeeds when the credentials are available. */
  lemma LoadedImpliesAvailable(username: Option<string>, credential: Option<string>)
    requires FromEnv(username, credential).Success?
    ensures Available(username, credential)
  {
  }

  /** Availability does not mean loading succeeds: a blank username is
      available but invalid. */
  lemma AvailableButInvalid()
    ensures Available(Some(" "), Some("secret"))
    ensures FromEnv(Some(" "), Some("secret")) == Failure(Invalid("OPENSRS_USERNAME cannot be empty"))
  {
    assert AllWhitespace(" ");
    assert !IsWhitespace("secret"[0]);
  }

  /** With neither variable set, loading fails on the username. */
  lemma MissingBoth()
    ensures !Available(None, None)
    ensures FromEnv(None, None).Failure?
    ensures Message(FromEnv(None, None).error) == "Missing required environment variable: OPENSRS_USERNAME"
  {
  }
}
