/** client-tenant/src/lib/qaSessionReplay.ts: the rolling two-bucket replay buffer. */
module QaSessionReplay {
  import opened Lists

  /** An rrweb event; its content is opaque. */
  type Event = int

  datatype Op = Emit(event: Event, isCheckout: bool) | Clear

  const MAX_BUCKETS := 2

  class ReplayBuffer {
    var eventsMatrix: seq<seq<Event>>
    ghost var history: seq<Op>

    ghost predicate Valid()
      reads this
    {
      eventsMatrix == Matrix(history)
    }

    constructor ()
      ensures Valid() && history == []
    {
      eventsMatrix := [[]];
      history := [];
    }

    method Emit(event: Event, isCheckout: bool)
      requires Valid()
      modifies this
      ensures Valid() && history == old(history) + [Op.Emit(event, isCheckout)]
    {
      hide Matrix, Emitted;
      PushTrimmed(eventsMatrix, event, isCheckout);
      MatrixNext(history, event, isCheckout);
      if isCheckout {
        eventsMatrix := eventsMatrix + [[]];
        if |eventsMatrix| > MAX_BUCKETS {
          eventsMatrix := eventsMatrix[|eventsMatrix| - MAX_BUCKETS..];
        }
      }
      var last := |eventsMatrix| - 1;
      eventsMatrix := eventsMatrix[last := eventsMatrix[last] + [event]];
      history := history + [Op.Emit(event, isCheckout)];
    }

    method GetQaReplayEvents() returns (events: seq<Event>)
      requires Valid()
      ensures events == Recent(history, 2)
    {
      events := Flatten(eventsMatrix[if |eventsMatrix| > MAX_BUCKETS then |eventsMatrix| - MAX_BUCKETS else 0..]);
      RollingWindow(history);
    }

    method ClearQaReplay()
      modifies this
      ensures Valid() && history == old(history) + [Clear]
    {
      eventsMatrix := [[]];
      history := history + [Clear];
    }
  }

  /** One callback, on the buckets. */
  function Emitted(matrix: seq<seq<Event>>, event: Event, isCheckout: bool): seq<seq<Event>>
    requires |matrix| > 0
  {
    if isCheckout then [matrix[|matrix| - 1], [event]]
    else matrix[|matrix| - 1 := matrix[|matrix| - 1] + [event]]
  }

  /** The buckets after a history. */
  function Matrix(ops: seq<Op>): (matrix: seq<seq<Event>>)
    ensures 1 <= |matrix| <= MAX_BUCKETS
  {
    if ops == [] then [[]]
    else
      match ops[|ops| - 1]
      case Clear => [[]]
      case Emit(event, isCheckout) => Emitted(Matrix(ops[..|ops| - 1]), event, isCheckout)
  }

  lemma MatrixNext(ops: seq<Op>, event: Event, isCheckout: bool)
    ensures Matrix(ops + [Op.Emit(event, isCheckout)]) == Emitted(Matrix(ops), event, isCheckout)
  {
    assert (ops + [Op.Emit(event, isCheckout)])[..|ops|] == ops;
    hide Emitted;
  }

  /** Opening a bucket and dropping the oldest, then pushing into the last. */
  lemma PushTrimmed(matrix: seq<seq<Event>>, event: Event, isCheckout: bool)
    requires 1 <= |matrix| <= MAX_BUCKETS
    ensures var longer := matrix + [[]];
            var trimmed := if |longer| > MAX_BUCKETS then longer[|longer| - MAX_BUCKETS..] else longer;
            var buckets := if isCheckout then trimmed else matrix;
            |buckets| > 0 && buckets[|buckets| - 1 := buckets[|buckets| - 1] + [event]] == Emitted(matrix, event, isCheckout)
  {
    assert [] + [event] == [event];
  }

  /** The events of a history back to the `checkouts`-latest checkout or the latest clear, whichever
      is later. */
  ghost function Recent(ops: seq<Op>, checkouts: nat): seq<Event> {
    if ops == [] || ops[|ops| - 1].Clear? || checkouts == 0 then []
    else
      var op := ops[|ops| - 1];
      Recent(ops[..|ops| - 1], if op.isCheckout then checkouts - 1 else checkouts) + [op.event]
  }

  lemma EmittedFlat(matrix: seq<seq<Event>>, event: Event, isCheckout: bool)
    requires |matrix| > 0
    ensures var last, after := matrix[|matrix| - 1], Emitted(matrix, event, isCheckout);
            && after[|after| - 1] == (if isCheckout then [] else last) + [event]
            && Flatten(after) == (if isCheckout then last else Flatten(matrix)) + [event]
  {
    var front, last := matrix[..|matrix| - 1], matrix[|matrix| - 1];
    if isCheckout {
      FlattenPush([last], [event]);
      FlattenPush([], last);
      assert [last] + [[event]] == [last, [event]] && [] + [last] == [last];
      assert Flatten<Event>([]) + last == last;
    } else {
      FlattenPush(front, last + [event]);
      assert front + [last + [event]] == Emitted(matrix, event, isCheckout);
      assert Flatten(front) + (last + [event]) == (Flatten(front) + last) + [event];
    }
  }

  /** Over every history the buffer holds one or two buckets, the last of them reaches back to the
      latest checkout and both together to the second-latest. */
  lemma {:induction false} RollingWindow(ops: seq<Op>)
    ensures 1 <= |Matrix(ops)| <= MAX_BUCKETS
    ensures Matrix(ops)[|Matrix(ops)| - 1] == Recent(ops, 1)
    ensures Flatten(Matrix(ops)) == Recent(ops, 2)
  {
    hide Flatten, Emitted;
    if ops == [] || ops[|ops| - 1].Clear? {
      FlattenEmpty<Event>();
    } else {
      var before, op := ops[..|ops| - 1], ops[|ops| - 1];
      RollingWindow(before);
      EmittedFlat(Matrix(before), op.event, op.isCheckout);
    }
  }
}
