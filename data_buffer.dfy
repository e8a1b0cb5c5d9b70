/**
  `DataBuffer`: a named, size-capped queue of doubles with a write-once
  ("static") latch, an eviction counter, a lazily issued state token that every
  mutation invalidates, and an ordered set of observers.

  Writes are sequential here; the dispatch queue, `async` and main-thread
  hand-off of the source are not modelled. Notifying the observers is modelled
  as the list of observers visited, in the order they are visited.
*/
module DataBuffers {
  import opened Doubles

  /** An observer, identified by a handle; NSMutableOrderedSet keeps each at most once. */
  type ObserverId = nat

  predicate NoDuplicates(s: seq<ObserverId>) {
    forall i, j :: 0 <= i < j < |s| ==> s[i] != s[j]
  }

  /** Position of `o` in `s`. */
  function IndexOf(s: seq<ObserverId>, o: ObserverId): (k: nat)
    requires o in s
    ensures k < |s| && s[k] == o
    ensures forall i :: 0 <= i < k ==> s[i] != o
  {
    if s[0] == o then 0 else 1 + IndexOf(s[1..], o)
  }

  /**
    `NSMutableOrderedSet.removeObject`: drop `o`, keep every other member in
    its order.
  */
  function Without(s: seq<ObserverId>, o: ObserverId): (r: seq<ObserverId>)
    ensures forall x :: x in r <==> x in s && x != o
    ensures o !in s ==> r == s
    ensures NoDuplicates(s) ==> NoDuplicates(r)
  {
    if |s| == 0 then []
    else if s[0] == o then Without(s[1..], o)
    else
      var rest := Without(s[1..], o);
      assert NoDuplicates(s) ==> NoDuplicates(s[1..]) && s[0] !in rest;
      [s[0]] + rest
  }

  /** In a duplicate-free list, removal takes out exactly the one entry and keeps the order of the rest. */
  lemma {:induction false} WithoutCutsOne(s: seq<ObserverId>, o: ObserverId)
    requires NoDuplicates(s) && o in s
    ensures Without(s, o) == s[..IndexOf(s, o)] + s[IndexOf(s, o) + 1..]
  {
    if s[0] == o {
      assert o !in s[1..];
    } else {
      assert NoDuplicates(s[1..]);
      WithoutCutsOne(s[1..], o);
      assert s[..IndexOf(s, o)] == [s[0]] + s[1..][..IndexOf(s[1..], o)];
      assert s[IndexOf(s, o) + 1..] == s[1..][IndexOf(s[1..], o) + 1..];
    }
  }

  /** The elements of `s` that fit in `n` places: its last min(|s|, n) elements. */
  function KeepLast(s: seq<Double>, n: nat): (r: seq<Double>)
    ensures |r| == if |s| <= n then |s| else n
    ensures r == s[|s| - |r|..]
  {
    if |s| > n then s[|s| - n..] else s
  }

  /** The queue after one `append(v)`: enqueue, then drop ONE front element if over `size`. */
  function AppendStep(q: seq<Double>, v: Double, size: nat): (r: seq<Double>)
    ensures |q| < size ==> r == q + [v]
    ensures |q| >= size ==> r == (q + [v])[1..]
  {
    var e := q + [v];
    if |e| > size then e[1..] else e
  }

  /** The queue after `append`ing each of `vs` in turn. */
  function AppendEach(q: seq<Double>, vs: seq<Double>, size: nat): seq<Double>
    decreases |vs|
  {
    if |vs| == 0 then q else AppendEach(AppendStep(q, vs[0], size), vs[1..], size)
  }

  /**
    Appending values one at a time to a queue that fits its size keeps exactly
    the last `size` values of the queue followed by the appended ones.
  */
  lemma {:induction false} AppendEachKeepsLast(q: seq<Double>, vs: seq<Double>, size: nat)
    requires |q| <= size
    ensures AppendEach(q, vs, size) == KeepLast(q + vs, size)
    decreases |vs|
  {
    if |vs| == 0 {
      assert q + vs == q;
    } else {
      var v, rest := vs[0], vs[1..];
      var q' := AppendStep(q, v, size);
      assert AppendEach(q, vs, size) == AppendEach(q', rest, size);
      AppendStepKeepsLast(q, v, rest, size);
      AppendEachKeepsLast(q', rest, size);
      assert q + vs == q + [v] + rest;
    }
  }

  /** One append step on a queue within its size loses nothing that the last `size` would keep. */
  lemma AppendStepKeepsLast(q: seq<Double>, v: Double, rest: seq<Double>, size: nat)
    requires |q| <= size
    ensures |AppendStep(q, v, size)| <= size
    ensures KeepLast(AppendStep(q, v, size) + rest, size) == KeepLast(q + [v] + rest, size)
  {
    var q' := AppendStep(q, v, size);
    if |q| < size {
      assert q' + rest == q + [v] + rest;
    } else {
      assert q' + rest == (q + [v] + rest)[1..];
      KeepLastDropFront(q + [v] + rest, size);
    }
  }

  /** Dropping the front of a sequence longer than `n` does not change its last `n`. */
  lemma KeepLastDropFront(s: seq<Double>, n: nat)
    requires |s| > n
    ensures KeepLast(s[1..], n) == KeepLast(s, n)
  {
    assert s[1..][|s| - 1 - n..] == s[|s| - n..];
  }

  class DataBuffer {
    const name: string
    /** The cap on the number of stored values. */
    var size: nat
    /** The stored values, oldest first (the `Queue<Double>` of the source). */
    var queue: seq<Double>
    /** The current state token, if one has been issued since the last mutation. */
    var stateToken: Option<nat>
    /** Source of fresh tokens: every token ever issued is below it (stands for `NSUUID()`). */
    var nextToken: nat
    /** Registered observers, first registered first. */
    var observers: seq<ObserverId>
    /** Number of values dropped from the front by `append`. */
    var trashedCount: nat
    var staticBuffer: bool
    var written: bool

    ghost predicate Valid()
      reads this
    {
      && NoDuplicates(observers)
      && (stateToken.Some? ==> stateToken.value < nextToken)
    }

    constructor (name: string, size: nat)
      ensures Valid()
      ensures this.name == name && this.size == size
      ensures queue == [] && trashedCount == 0 && observers == []
      ensures stateToken == None && !staticBuffer && !written
    {
      this.name := name;
      this.size := size;
      queue := [];
      stateToken := None;
      nextToken := 0;
      observers := [];
      trashedCount := 0;
      staticBuffer := false;
      written := false;
    }

    /** `count`: the number of values reported, never more than `size`. */
    function Count(): (c: nat)
      reads this
      ensures c <= size && c <= |queue|
      ensures c == size || c == |queue|
    {
      if |queue| < size then |queue| else size
    }

    /** `actualCount`: the number of values actually stored. */
    function ActualCount(): (n: nat)
      reads this
      ensures n == |queue|
      ensures Count() <= n && (n <= size ==> Count() == n)
    {
      |queue|
    }

    /**
      Assigning `size`. Its `didSet` loop dequeues while `count > size`, a guard
      that `count = min(actualCount, size)` makes false: nothing is removed,
      and a shrunk size only caps `count`.
    */
    method SetSize(newSize: nat)
      modifies this`size
      ensures size == newSize && queue == old(queue)
      ensures Count() <= newSize
    {
      size := newSize;
      if Count() > size {
        assert false;
      }
    }

    method AddObserver(o: ObserverId)
      requires Valid()
      modifies this`observers
      ensures Valid()
      ensures observers == if o in old(observers) then old(observers) else old(observers) + [o]
    {
      if o !in observers {
        observers := observers + [o];
      }
    }

    method RemoveObserver(o: ObserverId)
      requires Valid()
      modifies this`observers
      ensures Valid()
      ensures observers == Without(old(observers), o)
    {
      observers := Without(observers, o);
    }

    /** Visits every observer once, in registration order; returns the visit order. */
    method SendUpdateNotification() returns (notified: seq<ObserverId>)
      ensures notified == observers
    {
      notified := [];
      for i := 0 to |observers|
        invariant notified == observers[..i]
      {
        notified := notified + [observers[i]];
      }
    }

    /** Issues a token on first request after a mutation, and returns the same one until the next. */
    method GetStateToken() returns (token: Option<nat>)
      requires Valid()
      modifies this`stateToken, this`nextToken
      ensures Valid()
      ensures token.Some? && token == stateToken
      ensures old(stateToken).Some? ==> token == old(stateToken) && nextToken == old(nextToken)
      ensures old(stateToken).None? ==> token == Some(old(nextToken)) && nextToken == old(nextToken) + 1
    {
      if stateToken.None? {
        stateToken := Some(nextToken);
        nextToken := nextToken + 1;
      }
      token := stateToken;
    }

    /** A token is valid iff it is the buffer's current token; no token is never valid. */
    function StateTokenIsValid(token: Option<nat>): (valid: bool)
      reads this
      ensures token.None? ==> !valid
      ensures stateToken.None? ==> !valid
      ensures valid <==> token.Some? && stateToken == token
    {
      token.Some? && stateToken.Some? && stateToken == token
    }

    method BufferMutated()
      requires Valid()
      modifies this`stateToken
      ensures Valid() && stateToken.None?
    {
      stateToken := None;
    }

    /**
      `clear(notify:)`: empties the queue and zeroes `trashedCount` unless the
      buffer is static; a static buffer is never cleared, written or not.
    */
    method Clear(notify: bool) returns (notified: seq<ObserverId>)
      requires Valid()
      modifies this`queue, this`trashedCount, this`stateToken
      ensures Valid()
      ensures staticBuffer ==> queue == old(queue) && trashedCount == old(trashedCount)
                               && stateToken == old(stateToken) && notified == []
      ensures !staticBuffer ==> queue == [] && trashedCount == 0 && stateToken.None?
                                && notified == (if notify then observers else [])
    {
      notified := [];
      if !staticBuffer {
        queue := [];
        trashedCount := 0;
        BufferMutated();
        if notify {
          notified := SendUpdateNotification();
        }
      }
    }

    /**
      `replaceValues(_:notify:)`: unless latched, the queue becomes the last
      `size` of `values`, `trashedCount` is zeroed and the buffer is written.
    */
    method ReplaceValues(values: seq<Double>, notify: bool) returns (notified: seq<ObserverId>)
      requires Valid()
      modifies this`queue, this`trashedCount, this`stateToken, this`written
      ensures Valid()
      ensures old(staticBuffer && written) ==>
                queue == old(queue) && trashedCount == old(trashedCount) && written
                && stateToken == old(stateToken) && notified == []
      ensures !old(staticBuffer && written) ==>
                written && trashedCount == 0 && stateToken.None?
                && queue == KeepLast(values, size)
                && notified == (if notify then observers else [])
    {
      notified := [];
      if !staticBuffer || !written {
        written := true;
        trashedCount := 0;
        var vals := values;
        if |vals| > size {
          vals := vals[|vals| - size..];
        }
        queue := vals;
        BufferMutated();
        if notify {
          notified := SendUpdateNotification();
        }
      }
    }

    /**
      `append(_:notify:)`: unless latched, a present value is enqueued and, if
      the queue then holds more than `size`, one front value is dropped and
      counted. An absent value changes nothing, not even `written`.
    */
    method Append(value: Option<Double>, notify: bool) returns (notified: seq<ObserverId>)
      requires Valid()
      modifies this`queue, this`trashedCount, this`stateToken, this`written
      ensures Valid()
      ensures old(staticBuffer && written) || value.None? ==>
                queue == old(queue) && trashedCount == old(trashedCount) && written == old(written)
                && stateToken == old(stateToken) && notified == []
      ensures !old(staticBuffer && written) && value.Some? ==>
                written && stateToken.None? && queue == AppendStep(old(queue), value.value, size)
                && (size > 0 ==> queue[|queue| - 1] == value.value)
                && trashedCount == old(trashedCount) + (if |old(queue)| + 1 > size then 1 else 0)
                && notified == (if notify then observers else [])
    {
      notified := [];
      if !staticBuffer || !written {
        if value.None? {
          return;
        }
        written := true;
        queue := queue + [value.value];
        if |queue| > size {
          queue := queue[1..];
          trashedCount := trashedCount + 1;
        }
        BufferMutated();
        if notify {
          notified := SendUpdateNotification();
        }
      }
    }

    /**
      `appendFromArray(_:notify:)` as written: it builds the old contents
      followed by `values`, cut to the last `size`, but then stores `values`
      itself. So the old contents are lost, the size cap is not applied and
      `trashedCount` is untouched.
    */
    method AppendFromArray(values: seq<Double>, notify: bool) returns (notified: seq<ObserverId>)
      requires Valid()
      modifies this`queue, this`stateToken, this`written
      ensures Valid()
      ensures old(staticBuffer && written) ==>
                queue == old(queue) && written && stateToken == old(stateToken) && notified == []
      ensures !old(staticBuffer && written) ==>
                written && stateToken.None? && queue == values
                && notified == (if notify then observers else [])
    {
      notified := [];
      if !staticBuffer || !written {
        written := true;
        var joined := queue + values;
        if |joined| > size {
          joined := joined[|joined| - size..];
        }
        queue := values;
        BufferMutated();
        if notify {
          notified := SendUpdateNotification();
        }
      }
    }

    /**
      `appendFromArray` as its own lines 201-207 intend: store the truncated
      concatenation. On a queue within its size this is the same as appending
      the values one at a time (see AppendEachKeepsLast).
    */
    method AppendFromArrayIntended(values: seq<Double>, notify: bool) returns (notified: seq<ObserverId>)
      requires Valid()
      modifies this`queue, this`stateToken, this`written
      ensures Valid()
      ensures old(staticBuffer && written) ==>
                queue == old(queue) && written && stateToken == old(stateToken) && notified == []
      ensures !old(staticBuffer && written) ==>
                written && stateToken.None? && queue == KeepLast(old(queue) + values, size)
                && (|old(queue)| <= size ==> queue == AppendEach(old(queue), values, size))
                && notified == (if notify then observers else [])
    {
      notified := [];
      if !staticBuffer || !written {
        written := true;
        var joined := queue + values;
        if |joined| > size {
          joined := joined[|joined| - size..];
        }
        if |queue| <= size {
          AppendEachKeepsLast(queue, values, size);
        }
        queue := joined;
        BufferMutated();
        if notify {
          notified := SendUpdateNotification();
        }
      }
    }
  }
}

/** Client-side consequences of the DataBuffer contracts, on concrete buffers. */
module DataBufferExamples {
  import opened Doubles
  import opened DataBuffers

  /**
    Token life cycle: two requests without a mutation in between give the same
    token; after an append, that token is no longer valid, even once a new
    token has been issued.
  */
  method TokenLifecycle(v: Double) returns (first: Option<nat>, second: Option<nat>, stillValid: bool)
    ensures first.Some? && first == second
    ensures !stillValid
  {
    var b := new DataBuffer("data", 4);
    first := b.GetStateToken();
    second := b.GetStateToken();
    var _ := b.Append(Some(v), true);
    var _ := b.GetStateToken();
    stillValid := b.StateTokenIsValid(first);
  }

  /**
    Capacity: three appends to a buffer of size 2 keep the last two values and
    count one eviction.
  */
  method CapacityExample() returns (contents: seq<Double>, trashed: nat)
    ensures contents == [Fin(2.0), Fin(3.0)] && trashed == 1
  {
    var b := new DataBuffer("data", 2);
    var _ := b.Append(Some(Fin(1.0)), true);
    assert b.queue == [Fin(1.0)] && b.trashedCount == 0;
    var _ := b.Append(Some(Fin(2.0)), true);
    assert b.queue == [Fin(1.0), Fin(2.0)] && b.trashedCount == 0;
    var _ := b.Append(Some(Fin(3.0)), true);
    contents, trashed := b.queue, b.trashedCount;
  }

  /**
    Static latch: after the first write to a static buffer, appends and array
    appends leave its contents alone.
  */
  method StaticLatchExample() returns (contents: seq<Double>)
    ensures contents == [PosInf]
  {
    var b := new DataBuffer("edit", 1);
    b.staticBuffer := true;
    var _ := b.ReplaceValues([PosInf], true);
    var _ := b.Append(Some(Fin(2.0)), true);
    assert b.queue == [PosInf] && b.staticBuffer && b.written;
    var _ := b.AppendFromArray([Fin(3.0)], true);
    contents := b.queue;
  }

  /** Static latch: a second replacement of a written static buffer leaves its contents alone. */
  method StaticReplaceLatchExample() returns (contents: seq<Double>)
    ensures contents == [PosInf]
  {
    var b := new DataBuffer("edit", 1);
    b.staticBuffer := true;
    var _ := b.ReplaceValues([PosInf], true);
    assert b.queue == [PosInf] && b.staticBuffer && b.written;
    var _ := b.ReplaceValues([NegInf], true);
    contents := b.queue;
  }

  /** `clear` leaves a written static buffer alone. */
  method StaticClearExample() returns (kept: seq<Double>)
    ensures kept == [Fin(1.0)]
  {
    var b := new DataBuffer("edit", 1);
    b.staticBuffer := true;
    assert KeepLast([Fin(1.0)], 1) == [Fin(1.0)];
    var _ := b.ReplaceValues([Fin(1.0)], true);
    assert b.queue == [Fin(1.0)] && b.staticBuffer && b.written;
    var _ := b.Clear(true);
    assert b.queue == [Fin(1.0)];
    kept := b.queue;
  }

  /**
    `clear` tests only the static flag: even a static buffer that was never
    written is not cleared, so its state token survives.
  */
  method UnwrittenStaticClearExample() returns (tokenSurvives: bool)
    ensures tokenSurvives
  {
    var b := new DataBuffer("edit", 1);
    b.staticBuffer := true;
    var t := b.GetStateToken();
    var _ := b.Clear(true);
    tokenSurvives := b.StateTokenIsValid(t);
  }

  /**
    `appendFromArray` as written loses what the buffer held: after appending 1
    and then the array [2] to a buffer of size 5, it holds [2], where the
    truncated concatenation it computed (and the intended version) is [1, 2].
  */
  method AppendFromArrayDropsContents() returns (asWritten: seq<Double>, intended: seq<Double>)
    ensures asWritten == [Fin(2.0)]
    ensures intended == [Fin(1.0), Fin(2.0)]
    ensures asWritten != intended
  {
    var b := new DataBuffer("out", 5);
    var _ := b.Append(Some(Fin(1.0)), false);
    assert b.queue == [Fin(1.0)] && !b.staticBuffer;
    var _ := b.AppendFromArray([Fin(2.0)], false);
    asWritten := b.queue;
    var c := new DataBuffer("out", 5);
    var _ := c.Append(Some(Fin(1.0)), false);
    assert c.queue == [Fin(1.0)] && !c.staticBuffer;
    var _ := c.AppendFromArrayIntended([Fin(2.0)], false);
    assert c.queue == KeepLast([Fin(1.0)] + [Fin(2.0)], 5);
    assert [Fin(1.0)] + [Fin(2.0)] == [Fin(1.0), Fin(2.0)];
    intended := c.queue;
  }
}
