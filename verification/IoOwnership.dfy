/**
 Who owns what in FreeRTOS+IO: a peripheral has a control structure for each
 direction, the control structure a state for its transfer mode, and the state
 its kernel objects and buffer. Changing the mode frees and allocates all of
 these, and every allocation may fail.
 */
module IoOwnership {
  import opened Words

  const POLLED_TX: nat := 0
  const POLLED_RX: nat := 1
  const ZERO_COPY_TX: nat := 2
  const CHARACTER_QUEUE_TX: nat := 3
  const CHARACTER_QUEUE_RX: nat := 4
  const CIRCULAR_BUFFER_RX: nat := 5

  /** A live block of memory, by the structure it holds, or a live kernel object. */
  datatype Cell =
    | Control(ucType: nat, state: Option<nat>)
    | ZeroCopyState(mutex: Option<nat>)
    | CharQueueState(queue: Option<nat>)
    | CircularState(newData: Option<nat>, buffer: Option<nat>)
    | PolledState
    | Buffer
    | Semaphore
    | Queue

  type Heap = map<nat, Cell>

  predicate IsCell(heap: Heap, p: Option<nat>, c: Cell) {
    p.Some? && p.value in heap && heap[p.value] == c
  }

  predicate IsQueueType(ucType: nat) {
    ucType == CHARACTER_QUEUE_TX || ucType == CHARACTER_QUEUE_RX
  }

  /** The state of a control structure is complete: everything it points to is live and of its kind. */
  predicate StateComplete(heap: Heap, ucType: nat, state: Option<nat>) {
    if ucType == POLLED_RX then true  // shares the state of the other direction
    else
      && state.Some? && state.value in heap
      && match heap[state.value]
         case ZeroCopyState(m) => ucType == ZERO_COPY_TX && IsCell(heap, m, Semaphore)
         case CharQueueState(q) => IsQueueType(ucType) && IsCell(heap, q, Queue)
         case CircularState(s, b) =>
           ucType == CIRCULAR_BUFFER_RX && IsCell(heap, s, Semaphore) && IsCell(heap, b, Buffer)
         case PolledState => ucType == POLLED_TX
         case _ => false
  }

  predicate Complete(heap: Heap, control: Option<nat>) {
    control.Some? ==>
      && control.value in heap && heap[control.value].Control?
      && StateComplete(heap, heap[control.value].ucType, heap[control.value].state)
  }

  /** What a state owns: itself and what it points to. */
  function OwnedState(heap: Heap, ucType: nat, state: Option<nat>): set<nat>
    requires StateComplete(heap, ucType, state)
  {
    if ucType == POLLED_RX then {}
    else
      match heap[state.value]
      case ZeroCopyState(m) => {state.value, m.value}
      case CharQueueState(q) => {state.value, q.value}
      case CircularState(s, b) => {state.value, s.value, b.value}
      case _ => {state.value}
  }

  function Owned(heap: Heap, control: Option<nat>): set<nat>
    requires Complete(heap, control)
  {
    if control.None? then {}
    else {control.value} + OwnedState(heap, heap[control.value].ucType, heap[control.value].state)
  }

  /** Both directions are complete and share nothing. */
  predicate WellOwned(heap: Heap, tx: Option<nat>, rx: Option<nat>) {
    Complete(heap, tx) && Complete(heap, rx) && Owned(heap, tx) !! Owned(heap, rx)
  }

  /** Live cells that are not this peripheral's. */
  function Others(heap: Heap, tx: Option<nat>, rx: Option<nat>): Heap
    requires WellOwned(heap, tx, rx)
  {
    heap - (Owned(heap, tx) + Owned(heap, rx))
  }

  /** A control structure with a queue state and its queue. */
  predicate HasQueue(heap: Heap, control: Option<nat>) {
    && control.Some? && control.value in heap && heap[control.value].Control?
    && heap[control.value].state.Some? && heap[control.value].state.value in heap
    && heap[heap[control.value].state.value].CharQueueState?
    && IsCell(heap, heap[heap[control.value].state.value].queue, Queue)
  }

  function QueueCells(heap: Heap, control: Option<nat>): set<nat>
    requires HasQueue(heap, control)
  {
    var state := heap[control.value].state.value;
    {control.value, state, heap[state].queue.value}
  }

  /** A heap and the control pointer that is being configured. */
  class Memory {
    var heap: Heap
    var next: nat  // all live cells have smaller names
    ghost var failures: nat  // allocations that failed

    constructor ()
      ensures Valid() && heap == map[]
    {
      heap, next, failures := map[], 0, 0;
    }

    ghost predicate Valid()
      reads this
    {
      forall k :: k in heap ==> k < next
    }

    /** An allocation of memory or a kernel object; it may fail. */
    method Allocate(cell: Cell) returns (p: Option<nat>)
      requires Valid()
      modifies this
      ensures Valid()
      ensures p.None? ==> heap == old(heap) && failures == old(failures) + 1
      ensures p.Some? ==> p.value !in old(heap) && heap == old(heap)[p.value := cell] && failures == old(failures)
    {
      var enough: bool := *;
      if enough {
        p := Some(next);
        heap := heap[next := cell];
        next := next + 1;
      } else {
        p := None;
        failures := failures + 1;
      }
    }

    /** Frees a live cell; nothing can be freed twice. */
    method Free(p: Option<nat>)
      requires Valid() && p.Some? && p.value in heap
      modifies this`heap
      ensures Valid() && heap == old(heap) - {p.value}
    {
      heap := heap - {p.value};
    }

    /** Writes to a live cell. */
    method Write(p: Option<nat>, cell: Cell)
      requires Valid() && p.Some? && p.value in heap
      modifies this`heap
      ensures Valid() && heap == old(heap)[p.value := cell]
    {
      heap := heap[p.value := cell];
    }

    /**
     Creates the control structure, with whatever the memory held before, or
     frees the state the existing one has and all that belongs to it.
     */
    method CreateTransferControlStructure(control: Option<nat>) returns (r: Option<nat>)
      requires Valid() && Complete(heap, control)
      modifies this
      ensures Valid()
      ensures control.Some? ==> r == control
      ensures r.None? ==> control.None? && heap == old(heap)
      ensures failures == old(failures) + if r.None? then 1 else 0
      ensures r.Some? ==> r.value in heap && heap[r.value].Control?
      ensures r.Some? ==> heap - {r.value} == old(heap) - Owned(old(heap), control)
      ensures r.Some? && control.None? ==> r.value !in old(heap)
    {
      if control.None? {
        var ucType: nat := *;
        var garbage: Option<nat> := *;
        r := Allocate(Control(ucType, garbage));
      } else {
        r := control;
        var ucType, state := heap[control.value].ucType, heap[control.value].state;
        FreeState(ucType, state, control.value);
        Write(control, Control(ucType, None));
      }
    }

    method FreeState(ucType: nat, state: Option<nat>, ghost control: nat)
      requires Valid() && StateComplete(heap, ucType, state)
      requires control in heap && heap[control].Control?
      modifies this`heap
      ensures Valid() && heap == old(heap) - OwnedState(old(heap), ucType, state)
      ensures control in heap && heap[control] == old(heap)[control]
    {
      if ucType == ZERO_COPY_TX {
        var mutex := heap[state.value].mutex;
        Free(mutex);
        Free(state);
      } else if ucType == CHARACTER_QUEUE_TX || ucType == CHARACTER_QUEUE_RX {
        var queue := heap[state.value].queue;
        Free(queue);
        Free(state);
      } else if ucType == CIRCULAR_BUFFER_RX {
        var semaphore, buffer := heap[state.value].newData, heap[state.value].buffer;
        Free(semaphore);
        Free(buffer);
        Free(state);
      } else if ucType == POLLED_TX {
        Free(state);
      }
    }

    method ConfigureZeroCopyTx(control: Option<nat>) returns (pass: bool, r: Option<nat>)
      requires Valid() && Complete(heap, control)
      modifies this
      ensures Valid() && Complete(heap, r)
      ensures pass <==> r.Some?
      ensures pass <==> failures == old(failures)
      ensures pass ==> heap[r.value].ucType == ZERO_COPY_TX
      ensures heap - Owned(heap, r) == old(heap) - Owned(old(heap), control)
    {
      pass := false;
      r := CreateTransferControlStructure(control);
      if r.Some? {
        var state := Allocate(ZeroCopyState(None));
        if state.Some? {
          var mutex := Allocate(Semaphore);
          Write(state, ZeroCopyState(mutex));
          if mutex.Some? {
            Write(r, Control(ZERO_COPY_TX, state));
            pass := true;
          } else {
            Free(state);
            state := None;
          }
        }
        if state.None? {
          Free(r);
          r := None;
        }
      }
    }

    /**
     Any request is taken; its low byte becomes the type of the new structure.
     The structure is then complete, and owns what was allocated, exactly when
     that byte is the code of one of the two queue modes.
     */
    method ConfigureTransferQueue(control: Option<nat>, request: nat) returns (pass: bool, r: Option<nat>)
      requires Valid() && Complete(heap, control)
      modifies this
      ensures Valid()
      ensures pass <==> r.Some?
      ensures pass <==> failures == old(failures)
      ensures pass ==> HasQueue(heap, r) && heap[r.value].ucType == request % 0x100
                       && heap - QueueCells(heap, r) == old(heap) - Owned(old(heap), control)
      ensures !pass ==> heap == old(heap) - Owned(old(heap), control)
      ensures (Complete(heap, r) && heap - Owned(heap, r) == old(heap) - Owned(old(heap), control))
              <==> (pass ==> IsQueueType(request % 0x100))
    {
      pass := false;
      r := CreateTransferControlStructure(control);
      if r.Some? {
        ghost var kept := heap - {r.value};
        var state := Allocate(CharQueueState(None));
        if state.Some? {
          var queue := Allocate(Queue);
          Write(state, CharQueueState(queue));
          if queue.Some? {
            Write(r, Control(request % 0x100, state));
            assert heap - QueueCells(heap, r) == kept;
            assert state.value in heap - {r.value} && state.value !in kept;
            pass := true;
          } else {
            Free(state);
            state := None;
          }
        }
        if state.None? {
          Free(r);
          r := None;
        }
      }
    }

    method ConfigureCircularBufferRx(control: Option<nat>) returns (pass: bool, r: Option<nat>)
      requires Valid() && Complete(heap, control)
      modifies this
      ensures Valid() && Complete(heap, r)
      ensures pass <==> r.Some?
      ensures pass <==> failures == old(failures)
      ensures pass ==> heap[r.value].ucType == CIRCULAR_BUFFER_RX
      ensures heap - Owned(heap, r) == old(heap) - Owned(old(heap), control)
    {
      pass := false;
      r := CreateTransferControlStructure(control);
      if r.Some? {
        var state := CreateCircularState();
        if state.Some? {
          Write(r, Control(CIRCULAR_BUFFER_RX, state));
          pass := true;
        } else {
          Free(r);
          r := None;
        }
      }
    }

    /** State, semaphore and buffer, or none of them. */
    method CreateCircularState() returns (state: Option<nat>)
      requires Valid()
      modifies this
      ensures Valid()
      ensures state.None? ==> heap == old(heap)
      ensures failures == old(failures) + if state.None? then 1 else 0
      ensures state.Some? ==>
                && StateComplete(heap, CIRCULAR_BUFFER_RX, state)
                && OwnedState(heap, CIRCULAR_BUFFER_RX, state) !! old(heap).Keys
                && heap - OwnedState(heap, CIRCULAR_BUFFER_RX, state) == old(heap)
    {
      state := Allocate(CircularState(None, None));
      if state.Some? {
        var semaphore := Allocate(Semaphore);
        Write(state, CircularState(semaphore, None));
        if semaphore.Some? {
          var buffer := Allocate(Buffer);
          Write(state, CircularState(semaphore, buffer));
          if buffer.None? {
            Free(semaphore);
            semaphore := None;
            Write(state, CircularState(None, None));
          }
        }
        if semaphore.None? {
          Free(state);
          state := None;
        }
      }
    }
  }

  /** A direction whose cells were not touched is still complete and owns the same. */
  lemma Untouched(heap: Heap, heap': Heap, control: Option<nat>)
    requires Complete(heap, control)
    requires forall k | k in Owned(heap, control) :: k in heap' && heap'[k] == heap[k]
    ensures Complete(heap', control) && Owned(heap', control) == Owned(heap, control)
  {
  }

  lemma OwnedIsLive(heap: Heap, control: Option<nat>)
    requires Complete(heap, control)
    ensures Owned(heap, control) <= heap.Keys
  {
  }

  /** Configuring one direction keeps the other, and all cells of others, as they were. */
  lemma OneSideChanged(heap: Heap, heap': Heap, side: Option<nat>, side': Option<nat>, other: Option<nat>)
    requires WellOwned(heap, side, other) && Complete(heap', side')
    requires heap' - Owned(heap', side') == heap - Owned(heap, side)
    ensures WellOwned(heap', side', other) && Owned(heap', other) == Owned(heap, other)
    ensures Others(heap', side', other) == Others(heap, side, other)
  {
    OwnedIsLive(heap, other);
    var kept := heap - Owned(heap, side);
    forall k | k in Owned(heap, other)
      ensures k in heap' && heap'[k] == heap[k] && k !in Owned(heap', side')
    {
      assert k in kept;
    }
    Untouched(heap, heap', other);
    RemovedTwice(heap, Owned(heap, side), Owned(heap, other));
    RemovedTwice(heap', Owned(heap', side'), Owned(heap, other));
  }

  lemma RemovedTwice(heap: Heap, a: set<nat>, b: set<nat>)
    ensures heap - a - b == heap - (a + b)
  {
  }

  lemma Swapped(heap: Heap, tx: Option<nat>, rx: Option<nat>)
    requires WellOwned(heap, tx, rx)
    ensures WellOwned(heap, rx, tx) && Others(heap, rx, tx) == Others(heap, tx, rx)
  {
    assert Owned(heap, tx) + Owned(heap, rx) == Owned(heap, rx) + Owned(heap, tx);
  }

  datatype Request = UseZeroCopyTx | UseCharacterQueueTx | UseCharacterQueueRx | UseCircularBufferRx

  predicate IsTx(request: Request) {
    request == UseZeroCopyTx || request == UseCharacterQueueTx
  }

  function Code(request: Request): nat {
    match request
    case UseZeroCopyTx => ZERO_COPY_TX
    case UseCharacterQueueTx => CHARACTER_QUEUE_TX
    case UseCharacterQueueRx => CHARACTER_QUEUE_RX
    case UseCircularBufferRx => CIRCULAR_BUFFER_RX
  }

  class Peripheral {
    const memory: Memory
    var txControl: Option<nat>
    var rxControl: Option<nat>

    constructor (memory: Memory)
      requires memory.Valid()
      ensures Valid() && this.memory == memory && txControl == None && rxControl == None
    {
      this.memory := memory;
      txControl, rxControl := None, None;
    }

    ghost predicate Valid()
      reads this, memory
    {
      memory.Valid() && WellOwned(memory.heap, txControl, rxControl)
    }

    ghost function OtherCells(): Heap
      requires Valid()
      reads this, memory
    {
      Others(memory.heap, txControl, rxControl)
    }

    /** The direction the driver picks: anything but the transmit queue is taken for reception. */
    method ConfigureTransferQueue(request: nat) returns (pass: bool)
      requires Valid()
      modifies this, memory
      ensures request == CHARACTER_QUEUE_TX ==> rxControl == old(rxControl) && (pass <==> txControl.Some?)
      ensures request != CHARACTER_QUEUE_TX ==> txControl == old(txControl) && (pass <==> rxControl.Some?)
      ensures pass <==> memory.failures == old(memory.failures)
      ensures pass ==> var control := if request == CHARACTER_QUEUE_TX then txControl else rxControl;
                       HasQueue(memory.heap, control) && memory.heap[control.value].ucType == request % 0x100
      ensures (pass ==> IsQueueType(request % 0x100)) ==> Valid() && OtherCells() == old(OtherCells())
    {
      hide Complete, Owned;
      ghost var heap, tx, rx := memory.heap, txControl, rxControl;
      if request == CHARACTER_QUEUE_TX {
        pass, txControl := memory.ConfigureTransferQueue(txControl, request);
        OneSideChanged(heap, memory.heap, tx, txControl, rx);
      } else {
        Swapped(heap, tx, rx);
        pass, rxControl := memory.ConfigureTransferQueue(rxControl, request);
        if pass ==> IsQueueType(request % 0x100) {
          OneSideChanged(heap, memory.heap, rx, rxControl, tx);
          Swapped(memory.heap, rxControl, tx);
        }
      }
    }

    /**
     One mode request; it succeeds when every allocation does. A failure leaves
     its direction without a control structure.
     */
    method Configure(request: Request) returns (pass: bool)
      requires Valid()
      modifies this, memory
      ensures Valid() && OtherCells() == old(OtherCells())
      ensures IsTx(request) ==> rxControl == old(rxControl) && (pass <==> txControl.Some?)
      ensures !IsTx(request) ==> txControl == old(txControl) && (pass <==> rxControl.Some?)
      ensures pass <==> memory.failures == old(memory.failures)
      ensures pass ==> memory.heap[(if IsTx(request) then txControl else rxControl).value].ucType == Code(request)
    {
      hide Complete, Owned;
      ghost var heap, tx, rx := memory.heap, txControl, rxControl;
      match request {
        case UseZeroCopyTx =>
          pass, txControl := memory.ConfigureZeroCopyTx(txControl);
          OneSideChanged(heap, memory.heap, tx, txControl, rx);
        case UseCircularBufferRx =>
          Swapped(heap, tx, rx);
          pass, rxControl := memory.ConfigureCircularBufferRx(rxControl);
          OneSideChanged(heap, memory.heap, rx, rxControl, tx);
          Swapped(memory.heap, rxControl, tx);
        case UseCharacterQueueTx =>
          pass := ConfigureTransferQueue(CHARACTER_QUEUE_TX);
        case UseCharacterQueueRx =>
          pass := ConfigureTransferQueue(CHARACTER_QUEUE_RX);
      }
    }

    /**
     Any sequence of requests, whichever allocations fail: what is live is what
     was live of others and what the two control pointers own, each cell once.
     */
    method ConfigureAll(requests: seq<Request>)
      requires Valid()
      modifies this, memory
      ensures Valid() && OtherCells() == old(OtherCells())
    {
      hide WellOwned, Others;
      var k := 0;
      while k < |requests|
        invariant k <= |requests| && Valid() && OtherCells() == old(OtherCells())
      {
        var pass := Configure(requests[k]);
        k := k + 1;
      }
    }

    /** Nothing leaks: with nothing else live, the live cells are exactly those the two pointers own. */
    lemma NothingLeaks()
      requires Valid() && OtherCells() == map[]
      ensures memory.heap.Keys == Owned(memory.heap, txControl) + Owned(memory.heap, rxControl)
    {
      OwnedIsLive(memory.heap, txControl);
      OwnedIsLive(memory.heap, rxControl);
      forall k | k in memory.heap
        ensures k in Owned(memory.heap, txControl) + Owned(memory.heap, rxControl)
      {
        assert k !in OtherCells();
      }
    }
  }
}
