/** Configuration read from the process environment, its validation, and
    the fixed limits of the video platform and push transport. */
module Config {
  import opened Wrappers
  import opened Strings
  import Seqs

  /** The process environment: variable name to value. */
  type Env = map<string, string>

  /** An environment variable, with an unset variable read as empty. */
  function Var(env: Env, name: string): string {
    if name in env then env[name] else ""
  }

  const DefaultProjectId: string := "airtel-migration"

  datatype Settings = Settings(
    projectId: string,
    privateKey: string,
    clientEmail: string,
    apiKey: string,
    youtubeClientId: string,
    youtubeClientSecret: string,
    authClientId: string,
    authClientSecret: string)

  /** The three configuration objects built from the environment. The private
      key has its backslash-n escapes turned into newlines. */
  function LoadSettings(env: Env): (s: Settings)
    ensures s.projectId != ""
    ensures NoEscapes(s.privateKey)
    ensures s.youtubeClientId == s.authClientId && s.youtubeClientSecret == s.authClientSecret
  {
    var key := Var(env, "FIREBASE_PRIVATE_KEY");
    Settings(
      OrElse(Var(env, "FIREBASE_PROJECT_ID"), DefaultProjectId),
      OrElse(UnescapeNewlines(key), ""),
      Var(env, "FIREBASE_CLIENT_EMAIL"),
      Var(env, "YOUTUBE_API_KEY"),
      Var(env, "GOOGLE_CLIENT_ID"),
      Var(env, "GOOGLE_CLIENT_SECRET"),
      Var(env, "GOOGLE_CLIENT_ID"),
      Var(env, "GOOGLE_CLIENT_SECRET"))
  }

  /** The private key never keeps a backslash-n escape, and a key written
      with real newlines is taken as it is. */
  lemma {:induction false} PrivateKeyUnescaped(env: Env)
    ensures NoEscapes(LoadSettings(env).privateKey)
    ensures NoEscapes(Var(env, "FIREBASE_PRIVATE_KEY")) ==>
      LoadSettings(env).privateKey == Var(env, "FIREBASE_PRIVATE_KEY")
  {
    var key := Var(env, "FIREBASE_PRIVATE_KEY");
    if NoEscapes(key) {
      UnescapeIdentity(key);
    }
  }

  /** Every backslash-n in the stored key becomes a real newline, and the
      text on either side is loaded as it would be on its own. */
  lemma {:induction false} PrivateKeyEscapes(env: Env, a: string, b: string)
    requires Var(env, "FIREBASE_PRIVATE_KEY") == a + "\\n" + b
    ensures LoadSettings(env).privateKey == UnescapeNewlines(a) + "\n" + UnescapeNewlines(b)
  {
    UnescapeSplit(a, b);
  }

  /** The six required variables in declaration order, with their values. */
  function Required(s: Settings): seq<(string, string)> {
    [ ("FIREBASE_PROJECT_ID", s.projectId),
      ("FIREBASE_PRIVATE_KEY", s.privateKey),
      ("FIREBASE_CLIENT_EMAIL", s.clientEmail),
      ("YOUTUBE_API_KEY", s.apiKey),
      ("GOOGLE_CLIENT_ID", s.authClientId),
      ("GOOGLE_CLIENT_SECRET", s.authClientSecret) ]
  }

  const RequiredNames: seq<string> := [
    "FIREBASE_PROJECT_ID", "FIREBASE_PRIVATE_KEY", "FIREBASE_CLIENT_EMAIL",
    "YOUTUBE_API_KEY", "GOOGLE_CLIENT_ID", "GOOGLE_CLIENT_SECRET"]

  /** The first components of `req`, in order. */
  function NamesOf(req: seq<(string, string)>): seq<string> {
    seq(|req|, i requires 0 <= i < |req| => req[i].0)
  }

  /** Names of the pairs whose value is empty, in order: a name is reported
      exactly when it is paired with an empty value, and the report is
      empty exactly when every value is set. */
  function MissingOf(req: seq<(string, string)>): (names: seq<string>)
    ensures forall n :: n in names <==> (n, "") in req
    ensures |names| == 0 <==> forall i :: 0 <= i < |req| ==> req[i].1 != ""
    ensures Seqs.IsSubseq(names, NamesOf(req))
    decreases |req|
  {
    if |req| == 0 then []
    else
      var rest := MissingOf(req[1..]);
      assert req == [req[0]] + req[1..];
      assert NamesOf(req) == [req[0].0] + NamesOf(req[1..]);
      if req[0].1 == "" then [req[0].0] + rest
      else
        Seqs.SubseqDropHead(rest, NamesOf(req));
        rest
  }

  /** Names of the required variables whose value is empty, in declaration order. */
  function MissingNames(s: Settings): seq<string> {
    MissingOf(Required(s))
  }

  const MissingPrefix: string := "Variables d'environnement manquantes: "

  /** Fails exactly when some required value is empty; the message names the
      missing variables in declaration order, separated by a comma and a space. */
  function ValidateConfig(s: Settings): (r: Outcome)
    ensures r.Fail? <==> exists i :: 0 <= i < |Required(s)| && Required(s)[i].1 == ""
    ensures r.Fail? ==> r.error == MissingPrefix + Join(MissingNames(s), ", ")
  {
    var names := MissingNames(s);
    if |names| > 0 then Fail(MissingPrefix + Join(names, ", ")) else Pass
  }

  /** The reported names follow the declaration order of the six variables. */
  lemma {:induction false} MissingInDeclarationOrder(s: Settings)
    ensures Seqs.IsSubseq(MissingNames(s), RequiredNames)
  {
    assert NamesOf(Required(s)) == RequiredNames;
  }

  /** The project id defaults to a non-empty value, so it is never reported missing. */
  lemma {:induction false} ProjectIdNeverMissing(env: Env)
    ensures "FIREBASE_PROJECT_ID" !in MissingNames(LoadSettings(env))
  {
    var s := LoadSettings(env);
    var req := Required(s);
    assert ("FIREBASE_PROJECT_ID", "") !in req by {
      assert req[0].1 != "";
      forall i | 1 <= i < |req| ensures req[i].0 != "FIREBASE_PROJECT_ID" {
      }
    }
  }

  /** Maximum number of video ids per details request. */
  const MaxVideosPerRequest: nat := 50
  const DailyQuotaLimit: nat := 10000
  const RequestsPerSecond: nat := 100

  /** Push transport retry budget and base delay in milliseconds. */
  const FcmMaxRetries: nat := 3
  const FcmRetryDelay: nat := 1000
}
