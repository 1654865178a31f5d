/**
 * The desktop application's frame queue (`frame_queue`, a `queue.Queue`
 * with `maxsize=10`) and the policy the video reader applies to it: when
 * the queue is full, the oldest frame is dropped to make room for the new
 * one. Modelled single-threaded; the reader thread is only the caller.
 */
module Frames {
  import opened Wrappers

  /** `maxsize` of the frame queue. */
  const MaxFrames: nat := 10

  /** The newest `MaxFrames` entries of a history, oldest first. */
  function Newest<T>(s: seq<T>): seq<T>
  {
    if |s| <= MaxFrames then s else s[|s| - MaxFrames..]
  }

  /**
   * One push by the reader: append when there is room, otherwise drop the
   * oldest frame and then append.
   */
  function PushDropOldest<T>(q: seq<T>, x: T): (r: seq<T>)
    requires |q| <= MaxFrames
    ensures |r| <= MaxFrames
  {
    if |q| < MaxFrames then q + [x] else q[1..] + [x]
  }

  /** Pushes a whole run of frames, in order. */
  function PushAll<T>(q: seq<T>, xs: seq<T>): (r: seq<T>)
    requires |q| <= MaxFrames
    ensures |r| <= MaxFrames
    decreases |xs|
  {
    if xs == [] then q else PushAll(PushDropOldest(q, xs[0]), xs[1..])
  }

  /**
   * A push keeps exactly the newest frames: appends onto a non-full queue,
   * and onto a full one drops the oldest and keeps the other nine in order.
   */
  lemma PushKeepsNewest<T>(q: seq<T>, x: T)
    requires |q| <= MaxFrames
    ensures PushDropOldest(q, x) == Newest(q + [x])
    ensures |q| < MaxFrames ==> PushDropOldest(q, x) == q + [x]
    ensures |q| == MaxFrames ==> PushDropOldest(q, x) == q[1..] + [x]
  {
    if |q| == MaxFrames {
      assert (q + [x])[|q| + 1 - MaxFrames..] == q[1..] + [x];
    }
  }

  /** Keeping the newest frames twice is keeping them once. */
  lemma NewestAbsorbs<T>(a: seq<T>, b: seq<T>)
    ensures Newest(Newest(a) + b) == Newest(a + b)
  {
    var s := a + b;
    var t := Newest(a) + b;
    if |a| > MaxFrames {
      var d := |a| - MaxFrames;
      assert t == s[d..];
      if |t| > MaxFrames {
        assert t[|t| - MaxFrames..] == s[|s| - MaxFrames..];
      }
    }
  }

  /**
   * Whatever the queue held and however many frames arrive, it ends up
   * holding the newest ten of the whole history, in arrival order.
   */
  lemma {:induction false} PushAllKeepsNewest<T>(q: seq<T>, xs: seq<T>)
    requires |q| <= MaxFrames
    ensures PushAll(q, xs) == Newest(q + xs)
    decreases |xs|
  {
    if xs == [] {
      assert q + xs == q;
    } else {
      var q1 := PushDropOldest(q, xs[0]);
      PushKeepsNewest(q, xs[0]);
      PushAllKeepsNewest(q1, xs[1..]);
      NewestAbsorbs(q + [xs[0]], xs[1..]);
      assert q + [xs[0]] + xs[1..] == q + xs;
    }
  }

  /** `frame_queue`: a bounded first-in first-out queue of frames. */
  class FrameQueue<T> {
    var items: seq<T>

    ghost predicate Valid()
      reads this
    {
      |items| <= MaxFrames
    }

    /** `queue.Queue(maxsize=10)` */
    constructor ()
      ensures Valid() && items == []
    {
      items := [];
    }

    /** `put(x, timeout=...)`: with no consumer running, a full queue raises `queue.Full`. */
    method TryPut(x: T) returns (ok: bool)
      requires Valid()
      modifies this
      ensures Valid()
      ensures ok <==> |old(items)| < MaxFrames
      ensures items == if ok then old(items) + [x] else old(items)
    {
      ok := |items| < MaxFrames;
      if ok {
        items := items + [x];
      }
    }

    /** `put(x)`, called only when there is room, so it does not block. */
    method Put(x: T)
      requires Valid() && |items| < MaxFrames
      modifies this
      ensures Valid() && items == old(items) + [x]
    {
      items := items + [x];
    }

    /** `get_nowait()`: the oldest frame, or `queue.Empty` (here `None`). */
    method TryGet() returns (r: Option<T>)
      requires Valid()
      modifies this
      ensures Valid()
      ensures old(items) == [] ==> r == None && items == []
      ensures old(items) != [] ==> r == Some(old(items)[0]) && items == old(items)[1..]
    {
      if items == [] {
        r := None;
      } else {
        r := Some(items[0]);
        items := items[1..];
      }
    }

    /** The reader's push: try to put; on `queue.Full`, take the oldest frame out and put again. */
    method Push(x: T)
      requires Valid()
      modifies this
      ensures Valid() && items == PushDropOldest(old(items), x)
    {
      var ok := TryPut(x);
      if !ok {
        var _ := TryGet();
        Put(x);
      }
    }
  }
}
