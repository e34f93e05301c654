/**
 * Configuration read from the process environment (main.go). The
 * environment is a parameter: a map from variable name to value.
 */
module Env {

  /** The defaults the listener falls back to. */
  const DefaultDbFile: string := "/tmp/webbook.db"
  const DefaultLogFile: string := "/tmp/webhook-log.txt"
  const DefaultGitlabSecret: string := "MyGitLabToken"

  /** `os.LookupEnv`: the value and whether the variable is set at all. */
  function LookupEnv(env: map<string, string>, key: string): (r: (string, bool))
    ensures r.1 <==> key in env
    ensures r.1 ==> r.0 == env[key]
    ensures !r.1 ==> r.0 == ""
  {
    if key in env then (env[key], true) else ("", false)
  }

  /**
   * `getEnv`: the variable's value when it is set, even when that value is
   * empty; the fallback only when it is not set.
   */
  function GetEnv(env: map<string, string>, key: string, fallback: string): (value: string)
    ensures key in env ==> value == env[key]
    ensures key !in env ==> value == fallback
  {
    var (value, isSet) := LookupEnv(env, key);
    if !isSet then fallback else value
  }

  /** The three settings `main` reads at start-up. */
  datatype Settings = Settings(dbFile: string, logFile: string, gitlabSecret: string)

  function LoadSettings(env: map<string, string>): (s: Settings)
    ensures "WEBBOOKS_DB_FILE" !in env ==> s.dbFile == DefaultDbFile
    ensures "WEBBOOKS_LOGS_FILE" !in env ==> s.logFile == DefaultLogFile
    ensures "GITLAB_SECRET" !in env ==> s.gitlabSecret == DefaultGitlabSecret
    ensures "WEBBOOKS_DB_FILE" in env ==> s.dbFile == env["WEBBOOKS_DB_FILE"]
    ensures "WEBBOOKS_LOGS_FILE" in env ==> s.logFile == env["WEBBOOKS_LOGS_FILE"]
    ensures "GITLAB_SECRET" in env ==> s.gitlabSecret == env["GITLAB_SECRET"]
  {
    Settings(GetEnv(env, "WEBBOOKS_DB_FILE", DefaultDbFile),
             GetEnv(env, "WEBBOOKS_LOGS_FILE", DefaultLogFile),
             GetEnv(env, "GITLAB_SECRET", DefaultGitlabSecret))
  }

  /**
   * An empty value set in the environment is not replaced by the fallback:
   * the result is empty exactly when the variable is set to "" or is unset
   * with an empty fallback.
   */
  lemma EmptyValueIsKept(env: map<string, string>, key: string, fallback: string)
    ensures GetEnv(env, key, fallback) == "" <==>
            (key in env && env[key] == "") || (key !in env && fallback == "")
  {
  }
}
