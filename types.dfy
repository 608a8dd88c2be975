/** Records the sorter passes between its stages. */
module Types {

  datatype Option<T> = None | Some(value: T)

  /** A playable track as the fetch loop stores it: uri, popularity, first artist's name, title. */
  datatype Track = Track(uri: string, popularity: int, artist: string, name: string)

  /** A local-only playlist entry, remembered with its absolute playlist position. */
  datatype LocalNote = LocalNote(position: nat, name: string)

  /** The uri list written back, in playlist order. */
  function Uris(tracks: seq<Track>): (uris: seq<string>)
    ensures |uris| == |tracks|
    ensures forall i :: 0 <= i < |tracks| ==> uris[i] == tracks[i].uri
  {
    if tracks == [] then [] else [tracks[0].uri] + Uris(tracks[1..])
  }

  // ---------------------------------------------------------------------------
  // Facts about sequences and multisets that the proofs of every stage use
  // ---------------------------------------------------------------------------

  lemma AppendAssoc<T>(a: seq<T>, b: seq<T>, c: seq<T>)
    ensures a + b + c == a + (b + c)
  {
  }

  lemma SliceJoin<T>(s: seq<T>, i: nat, j: nat, k: nat)
    requires i <= j <= k <= |s|
    ensures s[i..j] + s[j..k] == s[i..k]
  {
  }

  lemma DropDrop<T>(s: seq<T>, m: nat)
    requires 0 < m <= |s|
    ensures s[1..][m - 1..] == s[m..]
  {
  }

  /** A sequence is its front, the element at j, and its back. */
  lemma Around<T>(t: seq<T>, j: nat)
    requires j < |t|
    ensures t == t[..j] + [t[j]] + t[j + 1..]
  {
  }

  /** What follows a prefix and one element is the suffix after the prefix, less that element. */
  lemma SuffixAfter<T>(placed: seq<T>, x: T, tail: seq<T>, out: seq<T>)
    requires out == placed + [x] + tail
    ensures out == placed + ([x] + tail) && out[|placed|..] == [x] + tail
  {
  }

  lemma SplitMultiset<T>(a: seq<T>, m: seq<T>, b: seq<T>)
    ensures multiset(a + m + b) == multiset(a + b) + multiset(m)
  {
  }

  lemma Cancel<T>(x: T, a: multiset<T>, b: multiset<T>)
    requires multiset{x} + a == b + multiset{x}
    ensures a == b
  {
    forall y ensures a[y] == b[y] {
      assert (multiset{x} + a)[y] == (b + multiset{x})[y];
    }
  }
}
