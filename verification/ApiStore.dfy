/**
 The versioned object store every controller shares.

 One `Store` holds the objects of one kind.  Every committed write stamps the object with a
 version drawn from a counter that never repeats, which is what the resourceVersion of the
 Kubernetes API is.  `Update` and `UpdateStatus` are optimistic: they commit only when the
 caller's copy still carries the stored version.
 */
module ApiStore {

  datatype Option<+T> = None | Some(value: T)

  /** Namespace and name of an object; the kind is the store it lives in. */
  datatype Key = Key(namespace: string, name: string)

  /** `spec` and `metadata` are written by Update, `status` only by UpdateStatus. */
  datatype Object<S, T> = Object(
    uid: nat,
    version: nat,
    labels: map<string, string>,
    finalizers: set<string>,
    deletedAt: Option<nat>,
    spec: S,
    status: T)

  datatype Store<S, T> = Store(objects: map<Key, Object<S, T>>, next: nat)

  /** What a client holds after a Get or a List: the object and where it was read from. */
  datatype Copy<S, T> = Copy(key: Key, obj: Object<S, T>)

  /** The optimistic-concurrency precondition of both kinds of update. */
  predicate Accepts<S, T>(st: Store<S, T>, c: Copy<S, T>) {
    c.key in st.objects && st.objects[c.key].version == c.obj.version
  }

  /** Stores `obj` under a fresh version, or drops it when it is deleted and nothing holds it. */
  function Commit<S, T>(st: Store<S, T>, key: Key, obj: Object<S, T>): (r: Store<S, T>) {
    if obj.deletedAt.Some? && obj.finalizers == {} then
      Store(st.objects - {key}, st.next + 1)
    else
      Store(st.objects[key := obj.(version := st.next)], st.next + 1)
  }

  /** client.Update: labels, finalizers and spec of the copy replace the stored ones. */
  function Update<S, T>(st: Store<S, T>, c: Copy<S, T>): (r: Store<S, T>) {
    if Accepts(st, c) then
      Commit(st, c.key, st.objects[c.key].(labels := c.obj.labels, finalizers := c.obj.finalizers, spec := c.obj.spec))
    else
      st
  }

  /** client.Status().Update: only the status of the copy replaces the stored one. */
  function UpdateStatus<S, T>(st: Store<S, T>, c: Copy<S, T>): (r: Store<S, T>) {
    if Accepts(st, c) then
      Commit(st, c.key, st.objects[c.key].(status := c.obj.status))
    else
      st
  }

  /** client.Create with a fresh UID; an existing object is left as it is. */
  function Create<S, T>(st: Store<S, T>, key: Key, labels: map<string, string>, spec: S, status: T): (r: Store<S, T>) {
    if key in st.objects then st
    else Store(st.objects[key := Object(st.next, st.next, labels, {}, None, spec, status)], st.next + 1)
  }

  /** client.Delete: at once without finalizers, otherwise by stamping the deletion time once. */
  function Delete<S, T>(st: Store<S, T>, key: Key, now: nat): (r: Store<S, T>) {
    if key !in st.objects || st.objects[key].deletedAt.Some? then st
    else Commit(st, key, st.objects[key].(deletedAt := Some(now)))
  }

  /** No stored object is both deleted and unheld, and all versions are behind the counter. */
  ghost predicate WellFormed<S(!new), T(!new)>(st: Store<S, T>) {
    forall k :: k in st.objects ==>
      && st.objects[k].version < st.next
      && (st.objects[k].deletedAt.Some? ==> st.objects[k].finalizers != {})
  }

  /** An update accepted from a copy of the stored object stores what the caller changed in it, and nothing else. */
  lemma AcceptedUpdates<S, T>(st: Store<S, T>, c: Copy<S, T>)
    requires Accepts(st, c) && c.obj.uid == st.objects[c.key].uid && c.obj.deletedAt == st.objects[c.key].deletedAt
    requires c.obj.deletedAt.Some? ==> c.obj.finalizers != {}
    ensures c.obj.status == st.objects[c.key].status ==>
      Update(st, c) == Store(st.objects[c.key := c.obj.(version := st.next)], st.next + 1)
    ensures c.obj == st.objects[c.key].(status := c.obj.status) ==>
      UpdateStatus(st, c) == Store(st.objects[c.key := c.obj.(version := st.next)], st.next + 1)
  {
  }
}
