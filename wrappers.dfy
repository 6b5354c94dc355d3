/** Option and Result values standing in for Java's null and its exceptions, and a few sequence facts. */
module Wrappers {

  /** `None` plays the part of a Java `null` reference. */
  datatype Option<+T> = None | Some(value: T) {
    function GetOr(default: T): T {
      match this
      case Some(v) => v
      case None => default
    }
  }

  /** The outcome of an operation that can throw: `Err` carries the exception message. */
  datatype Result<+T> = Ok(value: T) | Err(message: string)

  /** Dropping the head of a sequence built by prepending one element. */
  lemma DropHead<T>(x: T, s: seq<T>)
    ensures ([x] + s)[1..] == s
  {
  }

  /** A sequence cut after its element `k`, and that front cut before it. */
  lemma CutAfter<T>(s: seq<T>, k: nat)
    requires k < |s|
    ensures s == s[..k + 1] + s[k + 1..]
    ensures s[..k + 1][..k] == s[..k] && s[..k + 1][k] == s[k]
  {
  }

  /** The front of `a + b`, for a non-empty `b`, is `a` followed by the front of `b`. */
  lemma AppendFront<T>(a: seq<T>, b: seq<T>)
    requires |b| > 0
    ensures (a + b)[..|a + b| - 1] == a + b[..|b| - 1]
    ensures (a + b)[|a + b| - 1] == b[|b| - 1]
  {
  }

  /** A non-empty sequence is its front followed by its last element. */
  lemma FrontLast<T>(s: seq<T>)
    requires |s| > 0
    ensures s[..|s| - 1] + [s[|s| - 1]] == s
  {
  }

  /** Updating a key of a map with its own value changes nothing. */
  lemma SameUpdate<K, V>(m: map<K, V>, k: K)
    requires k in m
    ensures m[k := m[k]] == m
  {
  }
}
