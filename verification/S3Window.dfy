/** The S3 upload scheduler: a window of at most max_inflight uploads, refilled by whichever
    thread completes one. The critical sections under the handle's mutex are the atomic steps. */
module S3Window {
  import opened Counting

  type Tid = nat

  /** What the mutex protects. Entry i has staged size[i] bytes. */
  datatype Handle = Handle(
    size: seq<nat>,
    max: nat,
    done: seq<bool>,
    submitted: seq<bool>,
    next: nat,
    inflight: nat,
    completed: nat,
    okObjects: nat,
    failedObjects: nat,
    bytes: nat,
    finished: bool,
    success: bool)

  /** The critical section of submit_ready_uploads: the index to submit, if any. */
  function Take(h: Handle): (Handle, bool, nat)
    requires |h.submitted| == |h.done|
  {
    if h.finished || h.inflight >= h.max || h.next >= |h.done| then (h, false, 0)
    else
      (h.(next := h.next + 1, inflight := h.inflight + 1, submitted := h.submitted[h.next := true]), true, h.next)
  }

  /** The critical section of mark_upload_complete; true when the caller must submit more. */
  function Mark(h: Handle, index: nat, ok: bool): (Handle, bool)
    requires |h.size| == |h.done|
  {
    if index >= |h.done| || h.done[index] then (h, false)
    else
      var h1 := h.(done := h.done[index := true],
                   inflight := if h.inflight > 0 then h.inflight - 1 else 0,
                   completed := h.completed + 1,
                   okObjects := if ok then h.okObjects + 1 else h.okObjects,
                   bytes := if ok then h.bytes + h.size[index] else h.bytes,
                   failedObjects := if ok then h.failedObjects else h.failedObjects + 1);
      if h1.completed == |h1.done| then (h1.(finished := true, success := h1.failedObjects == 0), false)
      else (h1, true)
  }

  // ---------- The handle invariant ----------

  /** Every counter is determined by which entries were submitted and which are done. */
  ghost predicate HandleOk(h: Handle) {
    && |h.size| == |h.done| == |h.submitted| && h.max >= 1
    && h.next <= |h.done|
    && (forall i | 0 <= i < |h.done| :: h.submitted[i] <==> i < h.next)
    && (forall i | 0 <= i < |h.done| && h.done[i] :: i < h.next)
    && h.completed == Count(h.done) && h.inflight + h.completed == h.next && h.inflight <= h.max
    && h.okObjects + h.failedObjects == h.completed
    && (h.finished <==> h.completed == |h.done|)
    && (h.finished ==> (h.success <==> h.failedObjects == 0))
  }

  lemma TakeKeeps(h: Handle)
    requires HandleOk(h)
    ensures HandleOk(Take(h).0)
    ensures Take(h).1 ==> Take(h).2 == h.next < |h.done| && Take(h).0.next == h.next + 1
    ensures !Take(h).1 <==> h.finished || h.inflight == h.max || h.next == |h.done|
  {
    if Take(h).1 {
      CountBounds(h.done, h.next);
    }
  }

  lemma MarkKeeps(h: Handle, index: nat, ok: bool)
    requires HandleOk(h) && index < h.next
    ensures HandleOk(Mark(h, index, ok).0) && Mark(h, index, ok).0.next == h.next
    ensures !h.done[index] ==> (Mark(h, index, ok).1 <==> !Mark(h, index, ok).0.finished)
  {
    if !h.done[index] {
      CountSet(h.done, index);
      CountBounds(h.done, h.next);
    }
  }

  /** What a refill adds: entries [from, to) submitted, those that threw completed as failed. */
  ghost predicate Refilled(h: Handle, h': Handle, throws: seq<bool>)
    requires |throws| == |h.done|
  {
    && HandleOk(h') && |h'.done| == |h.done| && h'.size == h.size && h'.max == h.max && h.next <= h'.next
    && (forall i | 0 <= i < |h.done| :: h'.done[i] == (h.done[i] || (h.next <= i < h'.next && throws[i])))
    && h'.okObjects == h.okObjects && h'.bytes == h.bytes
  }

  lemma NoRefill(h: Handle, throws: seq<bool>)
    requires HandleOk(h) && |throws| == |h.done|
    ensures Refilled(h, h, throws)
  {
  }

  lemma RefillGoesOn(h: Handle, v: Handle, throws: seq<bool>)
    requires |throws| == |h.done| && Refilled(h, v, throws)
    ensures |v.done| == |h.done| && h.next <= v.next <= |v.done|
  {
  }

  lemma RefilledShape(h: Handle, v: Handle, throws: seq<bool>)
    requires |throws| == |h.done| && Refilled(h, v, throws)
    ensures HandleOk(v) && |v.done| == |h.done| == |v.submitted| == |v.size| && v.next <= |v.done|
  {
  }

  /** Submitting one more entry without an exception extends a refill ... */
  lemma TakeRefills(h: Handle, v: Handle, throws: seq<bool>)
    requires HandleOk(h) && |throws| == |h.done| && Refilled(h, v, throws) && Take(v).1 && !throws[v.next]
    ensures Refilled(h, Take(v).0, throws)
  {
    TakeKeeps(v);
  }

  /** ... and so does submitting one that throws, with the refill its completion sets off. */
  lemma ThrowRefills(h: Handle, v: Handle, w: Handle, throws: seq<bool>)
    requires HandleOk(h) && |throws| == |h.done| && Refilled(h, v, throws) && Take(v).1 && throws[v.next]
    requires Refilled(Mark(Take(v).0, v.next, false).0, w, throws)
    ensures Refilled(h, w, throws)
  {
    hide Count;
    TakeKeeps(v);
    MarkKeeps(Take(v).0, v.next, false);
  }

  // ---------- The handle as an object ----------

  class S3WriteHandle {
    const size: seq<nat>
    const max: nat
    var done: seq<bool>
    var submitted: seq<bool>
    var next: nat
    var inflight: nat
    var completed: nat
    var okObjects: nat
    var failedObjects: nat
    var bytes: nat
    var finished: bool
    var success: bool

    function View(): Handle
      reads this
    {
      Handle(size, max, done, submitted, next, inflight, completed, okObjects, failedObjects, bytes, finished, success)
    }

    ghost predicate Valid()
      reads this
    {
      HandleOk(View())
    }

    /** The entries staged, nothing submitted; with no entry the handle is born finished. */
    constructor (sizes: seq<nat>, maxInflight: nat)
      ensures Valid() && next == 0 && size == sizes && max == if maxInflight == 0 then 1 else maxInflight
      ensures |done| == |sizes| && finished == (sizes == [])
    {
      size, max := sizes, if maxInflight == 0 then 1 else maxInflight;
      done, submitted := seq(|sizes|, _ => false), seq(|sizes|, _ => false);
      next, inflight, completed, okObjects, failedObjects, bytes := 0, 0, 0, 0, 0, 0;
      finished, success := sizes == [], true;
      new;
      CountBounds(done, 0);
    }

    method TakeLocked() returns (took: bool, index: nat)
      requires Valid()
      modifies this
      ensures View() == Take(old(View())).0 && took == Take(old(View())).1 && index == Take(old(View())).2
    {
      if finished || inflight >= max || next >= |done| {
        return false, 0;
      }
      index := next;
      next := next + 1;
      inflight := inflight + 1;
      submitted := submitted[index := true];
      took := true;
    }

    method MarkLocked(index: nat, ok: bool) returns (more: bool)
      requires Valid()
      modifies this
      ensures View() == Mark(old(View()), index, ok).0 && more == Mark(old(View()), index, ok).1
    {
      if index >= |done| || done[index] {
        return false;
      }
      done := done[index := true];
      if inflight > 0 {
        inflight := inflight - 1;
      }
      completed := completed + 1;
      if ok {
        okObjects := okObjects + 1;
        bytes := bytes + size[index];
      } else {
        failedObjects := failedObjects + 1;
      }
      if completed == |done| {
        finished := true;
        success := failedObjects == 0;
        return false;
      }
      more := true;
    }

    /** submit_ready_uploads, where throws[i] says whether PutObjectAsync throws for entry i and
        no callback runs meanwhile: it returns with the window full or everything submitted. */
    method SubmitReadyUploads(throws: seq<bool>)
      requires Valid() && |throws| == |done|
      modifies this
      ensures Refilled(old(View()), View(), throws)
      ensures finished || inflight == max || next == |done|
      decreases |done| - next, 0
    {
      hide Refilled, HandleOk;
      ghost var h := View();
      NoRefill(h, throws);
      while true
        invariant Refilled(h, View(), throws)
        decreases |done| - next
      {
        ghost var v := View();
        RefilledShape(h, v, throws);
        TakeKeeps(v);
        var took, index := TakeLocked();
        if !took {
          return;
        }
        if throws[index] {
          MarkUploadComplete(index, false, throws);
          ThrowRefills(h, v, View(), throws);
          RefillGoesOn(Mark(Take(v).0, index, false).0, View(), throws);
        } else {
          TakeRefills(h, v, throws);
        }
      }
    }

    /** mark_upload_complete: the first completion of an entry counts, later ones change nothing. */
    method MarkUploadComplete(index: nat, ok: bool, throws: seq<bool>)
      requires Valid() && |throws| == |done| && (index < |done| ==> index < next)
      modifies this
      ensures |throws| == |done| && Refilled(Mark(old(View()), index, ok).0, View(), throws)
      ensures Mark(old(View()), index, ok).1 ==> finished || inflight == max || next == |done|
      decreases |done| - next, 1
    {
      if index < |done| {
        MarkKeeps(View(), index, ok);
      }
      var more := MarkLocked(index, ok);
      if more {
        SubmitReadyUploads(throws);
      }
    }
  }
}
