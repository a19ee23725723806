/** The object store behind src/adapters/s3_publish.rs: create-only uploads and a
    compare-and-swap guarded by an entity tag. These are the conditional writes of
    sections 13.1.1 (If-Match) and 13.1.2 (If-None-Match) of RFC 9110, each atomic. */
module ObjectStore {
  import opened Wrappers

  /** The tag identifies the bytes it was computed from. */
  datatype ETag<+V> = ETag(of: V)

  datatype UploadMode = CreateOnly | Overwrite

  function Get<K, V>(objects: map<K, V>, key: K): Option<V> {
    if key in objects then Some(objects[key]) else None
  }

  /** `Some` of the new store, or `None` when If-None-Match fails. */
  function PutIfAbsent<K, V>(objects: map<K, V>, key: K, value: V): Option<map<K, V>> {
    if key in objects then None else Some(objects[key := value])
  }

  /** If-Match on `expected`, or If-None-Match when there is none to expect. */
  function CompareAndSwap<K, V(==)>(objects: map<K, V>, key: K, expected: Option<ETag<V>>,
      value: V): Option<map<K, V>> {
    match expected
    case Some(tag) => if key in objects && ETag(objects[key]) == tag then Some(objects[key := value]) else None
    case None => PutIfAbsent(objects, key, value)
  }

  function TagOf<V>(read: Option<V>): Option<ETag<V>> {
    match read case Some(v) => Some(ETag(v)) case None => None
  }

  /** No object other than `except` is lost or rewritten. */
  ghost predicate Grows<K, V>(before: map<K, V>, after: map<K, V>, except: K) {
    forall k :: k in before && k != except ==> k in after && after[k] == before[k]
  }

  /** A swap guarded by what was read succeeds exactly when the object is still what was read. */
  lemma SwapSucceedsIffUnchanged<K, V>(objects: map<K, V>, key: K, read: Option<V>, value: V)
    ensures CompareAndSwap(objects, key, TagOf(read), value).Some? <==> Get(objects, key) == read
  {
    if read.Some? && key in objects {
      assert (ETag(objects[key]) == ETag(read.value)) == (objects[key] == read.value);
    }
  }

  class Bucket<K(==), V(==)> {
    var objects: map<K, V>

    constructor (initial: map<K, V>)
      ensures objects == initial
    {
      objects := initial;
    }

    /** False is the precondition failure of a create-only upload. */
    method UploadFile(key: K, value: V, mode: UploadMode) returns (ok: bool)
      modifies this
      ensures ok == (mode.Overwrite? || PutIfAbsent(old(objects), key, value).Some?)
      ensures objects == if ok then old(objects)[key := value] else old(objects)
    {
      ok := mode.Overwrite? || key !in objects;
      if ok {
        objects := objects[key := value];
      }
    }

    method Read(key: K) returns (found: Option<V>)
      ensures found == Get(objects, key)
    {
      found := if key in objects then Some(objects[key]) else None;
    }

    method Swap(key: K, expected: Option<ETag<V>>, value: V) returns (swapped: bool)
      modifies this
      ensures swapped == CompareAndSwap(old(objects), key, expected, value).Some?
      ensures objects == if swapped then old(objects)[key := value] else old(objects)
    {
      swapped := match expected
        case Some(tag) => key in objects && ETag(objects[key]) == tag
        case None => key !in objects;
      if swapped {
        objects := objects[key := value];
      }
    }
  }
}
