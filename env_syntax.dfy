/**
 * The shape every environment entry handed to the sandbox must have:
 * a non-empty key, then a literal '=', then the value. Entries are C
 * strings, so scanning stops at the first NUL character as well.
 */
module EnvSyntax {

  /** s starts with a non-empty key free of '=' and NUL, followed by '='. */
  predicate IsKeyValue(s: string) {
    exists i :: 0 < i < |s| && s[i] == '=' && KeyChars(s, i)
  }

  /** The first n characters of s are neither '=' nor the NUL terminator. */
  predicate KeyChars(s: string, n: nat)
    requires n <= |s|
  {
    forall j :: 0 <= j < n ==> s[j] != '=' && s[j] != '\0'
  }

  /**
   * validate_env_str: advance over the key until '=' or the terminator,
   * counting its length; accept only if the scan stopped at '=' after at
   * least one character.
   */
  method ValidateEnvStr(env: string) returns (ok: bool)
    ensures ok <==> IsKeyValue(env)
  {
    var p := 0;
    var keyLen := 0;
    while p < |env| && env[p] != '\0' && env[p] != '='
      invariant 0 <= p <= |env| && keyLen == p
      invariant KeyChars(env, p)
    {
      keyLen := keyLen + 1;
      p := p + 1;
    }
    if p == |env| || env[p] != '=' || keyLen == 0 {
      ok := false;
    } else {
      ok := true;
    }
  }

  /** An entry without '=', with an empty key, or empty, is rejected. */
  lemma RejectedShapes(s: string)
    ensures !IsKeyValue("")
    ensures !IsKeyValue("=" + s)
    ensures (forall j :: 0 <= j < |s| ==> s[j] != '=') ==> !IsKeyValue(s)
  {
    var t := "=" + s;
    forall i | 0 < i < |t| ensures !KeyChars(t, i) {
      assert t[0] == '=';
    }
  }

  /** The entry synthesised for the host working directory is well formed. */
  lemma {:induction false} PwdEntryIsKeyValue(cwd: string)
    ensures IsKeyValue("PWD=" + cwd)
  {
    var s := "PWD=" + cwd;
    assert s[3] == '=' && KeyChars(s, 3);
  }

  /** A key without '=' or NUL joined to any value is a well-formed entry. */
  lemma {:induction false} JoinedIsKeyValue(k: string, v: string)
    requires |k| > 0 && KeyChars(k, |k|)
    ensures IsKeyValue(k + "=" + v)
  {
    var s := k + "=" + v;
    assert s[|k|] == '=';
    assert KeyChars(s, |k|) by {
      forall j | 0 <= j < |k| ensures s[j] == k[j] { }
    }
  }
}
