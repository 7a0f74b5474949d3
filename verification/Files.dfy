/** Files, hashes and the other platform facts the evidence scripts depend on. */
module Files {
  import opened Wrappers

  type Bytes = seq<bv8>
  type FileSystem = map<string, Bytes>

  /** SHA-256 as hex text, path.resolve, Date.parse, and the secret rules applied to a file. */
  datatype Host = Host(
    sha256: Bytes -> string,
    resolve: (string, string) -> string,
    dateParse: string -> Option<int>,
    scan: Bytes -> seq<Finding>)

  datatype Finding = Finding(rule: string, lineNumber: nat)

  /** A recorded file: where it is, how long, and its hash. */
  datatype Stamp = Stamp(path: string, bytes: nat, sha256: string)

  /** The file is there with the recorded length and hash. */
  predicate Matches(host: Host, fs: FileSystem, path: string, bytes: nat, sha256: string) {
    path in fs && |fs[path]| == bytes && host.sha256(fs[path]) == sha256
  }

  predicate IsTimestamp(host: Host, text: string) {
    host.dateParse(text).Some?
  }

  /** value || null for a string. */
  function NonEmpty(s: Option<string>): Option<string> {
    if s == Some("") then None else s
  }

  /** No file changed between two file systems while keeping its length and its hash. */
  predicate NoCollision(host: Host, a: FileSystem, b: FileSystem) {
    forall p | p in a && p in b ::
      |a[p]| == |b[p]| && host.sha256(a[p]) == host.sha256(b[p]) ==> a[p] == b[p]
  }

  predicate SameFile(a: FileSystem, b: FileSystem, path: string) {
    path in a && path in b && a[path] == b[path]
  }

  /** One recorded length and hash that matches in both file systems pins the content. */
  lemma {:induction false} MatchPins(host: Host, a: FileSystem, b: FileSystem, path: string, bytes: nat, sha256: string)
    requires NoCollision(host, a, b)
    requires Matches(host, a, path, bytes, sha256) && Matches(host, b, path, bytes, sha256)
    ensures SameFile(a, b, path)
  {
  }
}
