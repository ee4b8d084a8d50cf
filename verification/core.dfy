/** Findings and the identifiers the rest of Seta keys them by. */
module Core {
  datatype Option<+T> = None | Some(value: T)

  datatype Result<+T, +E> = Ok(value: T) | Err(error: E)

  /** What a finding is about. The source hashes this triple; the hash is taken to be injective. */
  datatype Fingerprint = Fingerprint(checkID: string, target: string, subject: string)

  /** A problem some check found. `references` is None where the source has a nil slice. */
  datatype Finding = Finding(
    checkID: string,
    target: string,
    subject: string,
    severity: int,
    title: string,
    evidence: map<string, string>,
    remediation: string,
    references: Option<seq<string>>)
  {
    function Print(): Fingerprint { Fingerprint(checkID, target, subject) }
  }

  datatype Execution = Execution(target: string, checkID: string)

  /** A check that reached no verdict; the error text plays no part in the model. */
  datatype CheckError = CheckError(checkID: string, target: string)

  /** The outcome of one engine run, suppressions applied. Times are in milliseconds. */
  datatype RunResult = RunResult(
    started: int,
    duration: int,
    targets: seq<string>,
    ran: seq<Execution>,
    errors: seq<CheckError>,
    findings: seq<Finding>,
    suppressed: seq<Finding>)

  const SEVERITY_UNSET: int := 0
  const SEVERITY_INFO: int := 1
  const SEVERITY_CRITICAL: int := 5

  predicate ValidSeverity(s: int) { SEVERITY_INFO <= s <= SEVERITY_CRITICAL }

  function Max(a: int, b: int): int { if a < b then b else a }

  function Get<K, V>(m: map<K, V>, k: K): Option<V> {
    if k in m then Some(m[k]) else None
  }

  lemma SameMap<K(!new), V>(a: map<K, V>, b: map<K, V>)
    requires forall k :: Get(a, k) == Get(b, k)
    ensures a == b
  {
    forall k ensures k in a <==> k in b { assert Get(a, k) == Get(b, k); }
    forall k | k in a ensures a[k] == b[k] { assert Get(a, k) == Get(b, k); }
  }

  /** Lower case, for ASCII letters. */
  function LowerChar(c: char): char {
    if 'A' <= c <= 'Z' then (c as int + 32) as char else c
  }
}
