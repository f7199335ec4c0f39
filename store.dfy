/** One collection of the document store, as the pages and forms use it:
    documents keyed by id, added under a fresh id chosen by the store,
    overwritten with `setDoc` and removed with `deleteDoc`. */
module Store {
  import opened Types

  class Collection<T> {
    var docs: map<Id, T>

    constructor (initial: map<Id, T>)
      ensures docs == initial
    {
      docs := initial;
    }

    /** `addDoc`: the store picks an id not yet in use. */
    method Add(newId: Id, v: T)
      requires newId !in docs
      modifies this
      ensures docs == old(docs)[newId := v]
      ensures |docs| == |old(docs)| + 1
    {
      docs := docs[newId := v];
    }

    /** `setDoc(ref, data, { merge: true })` on a record whose modelled
        fields are all written: the record under `id` becomes `v`. */
    method Set(id: Id, v: T)
      modifies this
      ensures docs == old(docs)[id := v]
    {
      docs := docs[id := v];
    }

    /** `deleteDoc`. */
    method Delete(id: Id)
      modifies this
      ensures docs == old(docs) - {id}
      ensures id !in docs
    {
      docs := docs - {id};
    }
  }
}
