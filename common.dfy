/** Values shared by the workflow service, the runner and the API server:
    optional values and results, the status vocabulary of runs, jobs and steps,
    decimal rendering of numbers, and environment lookup with a default. */
module Common {

  datatype Option<+T> = None | Some(value: T)

  /** A result that is either a value or an error message (Go's `error`). */
  datatype Result<+T> = Ok(value: T) | Err(msg: string)

  /** An opaque timestamp: the model only records which clock reading was stored. */
  type Time = nat

  /** Every status string that the store and the runner use. Runs take
      pending, running, success, failed and cancelled; jobs and steps take
      pending, running, success, failed and skipped. */
  datatype Status = Pending | Running | Success | Failed | Cancelled | Skipped

  /** The string the store holds for a status. */
  function StatusName(s: Status): string {
    match s
    case Pending => "pending"
    case Running => "running"
    case Success => "success"
    case Failed => "failed"
    case Cancelled => "cancelled"
    case Skipped => "skipped"
  }

  /** Distinct statuses are stored as distinct strings, so a status read back
      from the store is the one that was written. */
  lemma StatusNameInjective(a: Status, b: Status)
    requires StatusName(a) == StatusName(b)
    ensures a == b
  {
  }

  // ---------------------------------------------------------------------
  // The parsed workflow specification: the fields of a job and of a step
  // that the service and the runner read.

  /** A variable name a step may set. `exec` splits an environment entry at
      its first '=', so a name is a string without '='. */
  type EnvName = s: string | '=' !in s

  datatype StepSpec = StepSpec(name: string, run: string, env: map<EnvName, string>, workingDir: string)

  /** A job of the specification: its ordered steps. */
  datatype JobSpec = JobSpec(steps: seq<StepSpec>)

  // ---------------------------------------------------------------------
  // Decimal rendering, as `fmt.Sprintf("%d", n)` does for a natural number.

  predicate IsDigit(c: char) {
    '0' <= c <= '9'
  }

  function DigitChar(d: nat): (c: char)
    requires d < 10
    ensures IsDigit(c) && c as int - '0' as int == d
  {
    "0123456789"[d]
  }

  function DigitValue(c: char): (d: nat)
    requires IsDigit(c)
    ensures d < 10 && DigitChar(d) == c
  {
    c as int - '0' as int
  }

  /** The decimal digits of `n`, most significant first, without leading zeros. */
  function NatToString(n: nat): (s: string)
    ensures |s| >= 1
    ensures forall i :: 0 <= i < |s| ==> IsDigit(s[i])
    ensures s[0] == '0' ==> n == 0
    decreases n
  {
    if n < 10 then [DigitChar(n)] else NatToString(n / 10) + [DigitChar(n % 10)]
  }

  /** Reads a string of decimal digits back as a number. */
  function StringToNat(s: string): nat
    requires forall i :: 0 <= i < |s| ==> IsDigit(s[i])
    decreases |s|
  {
    if |s| == 0 then 0 else StringToNat(s[..|s| - 1]) * 10 + DigitValue(s[|s| - 1])
  }

  /** Rendering loses nothing: reading the digits back gives the number. */
  lemma {:induction false} NatToStringRoundTrip(n: nat)
    ensures StringToNat(NatToString(n)) == n
    decreases n
  {
    var s := NatToString(n);
    if n >= 10 {
      var p := NatToString(n / 10);
      assert s == p + [DigitChar(n % 10)];
      assert s[..|s| - 1] == p;
      NatToStringRoundTrip(n / 10);
      assert StringToNat(s) == (n / 10) * 10 + n % 10;
    }
  }

  /** Distinct numbers are rendered as distinct strings. */
  lemma NatToStringInjective(m: nat, n: nat)
    requires NatToString(m) == NatToString(n)
    ensures m == n
  {
    NatToStringRoundTrip(m);
    NatToStringRoundTrip(n);
  }

  // ---------------------------------------------------------------------
  // Environment lookup.

  /** `os.Getenv`: the value of a variable, or the empty string when it is unset. */
  function LookupEnv(env: map<string, string>, key: string): string {
    if key in env then env[key] else ""
  }

  /** `getEnv(key, defaultValue)`: the variable's value when it is set to a
      non-empty string, otherwise the default. A variable set to "" counts
      as unset. */
  function GetEnv(env: map<string, string>, key: string, defaultValue: string): (r: string)
    ensures key in env && env[key] != "" ==> r == env[key]
    ensures (key !in env || env[key] == "") ==> r == defaultValue
  {
    var value := LookupEnv(env, key);
    if value != "" then value else defaultValue
  }

  /** A non-empty default guarantees a non-empty setting, and setting a
      variable to the empty string is the same as leaving it unset. */
  lemma GetEnvProperties(env: map<string, string>, key: string, defaultValue: string)
    ensures defaultValue != "" ==> GetEnv(env, key, defaultValue) != ""
    ensures GetEnv(env[key := ""], key, defaultValue) == GetEnv(env - {key}, key, defaultValue) == defaultValue
    ensures GetEnv(env, key, GetEnv(env, key, defaultValue)) == GetEnv(env, key, defaultValue)
  {
  }

  // ---------------------------------------------------------------------
  // Sequence facts, proved apart from the contexts that use them, where the
  // facts in scope would make them expensive.

  /** The sequences of `ss` one after the other. */
  function Concat<T>(ss: seq<seq<T>>): seq<T>
    decreases |ss|
  {
    if ss == [] then [] else Concat(ss[..|ss| - 1]) + ss[|ss| - 1]
  }

  lemma ConcatSnoc<T>(ss: seq<seq<T>>, s: seq<T>)
    ensures Concat(ss + [s]) == Concat(ss) + s
  {
    assert (ss + [s])[..|ss|] == ss;
  }

  lemma AppendAssoc<T>(a: seq<T>, b: seq<T>, c: seq<T>)
    ensures (a + b) + c == a + (b + c)
  {
  }

  lemma SplitLast<T>(s: seq<T>)
    requires s != []
    ensures s == s[..|s| - 1] + [s[|s| - 1]]
  {
  }

  lemma TakeSnoc<T>(s: seq<T>, n: nat)
    requires n < |s|
    ensures s[..n + 1] == s[..n] + [s[n]]
  {
  }

  lemma PrefixTrans<T>(a: seq<T>, b: seq<T>, c: seq<T>)
    requires a <= b && b <= c
    ensures a <= c
  {
    assert c[..|b|][..|a|] == c[..|a|];
  }

  lemma PrefixSplit<T>(p: seq<T>, s: seq<T>)
    requires p <= s
    ensures s == p + s[|p|..]
  {
    assert s == s[..|p|] + s[|p|..];
  }
}
