/** The object store the gateway reads: immutable objects, to which keys are only ever added. */
module Store {
  import opened Wrappers
  import Manifest

  newtype byte = x: int | 0 <= x < 256

  type Body = seq<byte>

  /** `reported` is what the reader's `Size()` says, if the reader has one; a negative size means
      unknown. `decoded` is what the JSON decoder makes of the body, if it is a manifest at all. */
  datatype Object = Object(body: Body, reported: Option<int>, decoded: Option<Manifest.Raw>) {
    /** The reported size, if there is one, is the size. */
    predicate Honest() {
      reported.Some? && reported.value >= 0 ==> reported.value == |body|
    }
  }

  type Store = map<string, Object>

  ghost predicate Honest(s: Store) {
    forall k :: k in s ==> s[k].Honest()
  }

  ghost predicate Grows(s: Store, s': Store) {
    forall k :: k in s ==> k in s' && s'[k] == s[k]
  }

  datatype ReadError = NotExist | Backend | ShortRead

  /** An open reader: the bytes it yields and the size it reports. */
  datatype Reader = Reader(body: Body, size: Option<int>)
}
