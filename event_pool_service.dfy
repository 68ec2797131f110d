/**
 * Event pools: numbered pools, each mapping a payload type to the listeners
 * attached to it and the payload value it currently holds. Dispatching stores
 * a payload and runs the listeners in the order they were attached.
 *
 * Running a listener is outside the model: an operation that runs listeners
 * returns them, in the order they run.
 */
module EventPoolService {
  import opened Wrappers
  import opened JavaInt

  /** What a panic or a THROW_NOW reports. */
  datatype EventError =
    | NoSuchPool     // getPool on an id never registered
    | PoolExists     // registerEventPool on an id already taken
    | NoSuchEvent    // a payload type never registered in the pool
    | NullPayload    // dispatchEvent with a null payload

  /** The pair kept per payload type: its listeners in attach order and its current payload (null is None). */
  datatype Event<L, V> = Event(listeners: seq<L>, payload: Option<V>)

  /** EventPool: payload types `K`, listeners `L`, payload values `V`. */
  class EventPool<K(==), L, V> {
    var payloads: map<K, Event<L, V>>

    constructor()
      ensures payloads == map[]
    {
      payloads := map[];
    }

    /**
     * attachListener(id, r): throws when `id` is not registered; otherwise
     * `r` becomes the last listener of `id`, and nothing else changes.
     */
    method AttachListener(id: K, r: L) returns (res: Result<(), EventError>)
      modifies this
      ensures id !in old(payloads) <==> res == Err(NoSuchEvent)
      ensures id !in old(payloads) ==> payloads == old(payloads)
      ensures id in old(payloads) ==>
        && payloads.Keys == old(payloads).Keys
        && payloads[id].listeners == old(payloads)[id].listeners + [r]
        && payloads[id].payload == old(payloads)[id].payload
        && forall k | k in payloads && k != id :: payloads[k] == old(payloads)[k]
    {
      if id !in payloads {
        return Err(NoSuchEvent);
      }
      var e := payloads[id];
      payloads := payloads[id := e.(listeners := e.listeners + [r])];
      res := Ok(());
    }

    /**
     * registerEvent(id, payload): `id` is (re)registered with no listeners
     * and the given payload; whatever it held before is dropped.
     */
    method RegisterEvent(id: K, payload: Option<V>)
      modifies this
      ensures payloads.Keys == old(payloads).Keys + {id}
      ensures payloads[id] == Event([], payload)
      ensures forall k | k in payloads && k != id :: payloads[k] == old(payloads)[k]
    {
      payloads := payloads[id := Event([], payload)];
    }

    /** getPayload(id): the payload currently held for `id`; throws when `id` is not registered. */
    function GetPayload(id: K): (r: Result<Option<V>, EventError>)
      reads this
      ensures r.Err? <==> id !in payloads
      ensures r.Err? ==> r.error == NoSuchEvent
      ensures r.Ok? ==> r.value == payloads[id].payload
    {
      if id in payloads then Ok(payloads[id].payload) else Err(NoSuchEvent)
    }

    /**
     * ping(id): runs the listeners of `id` in attach order without touching
     * the payload; throws when `id` is not registered.
     */
    method Ping(id: K) returns (ran: Result<seq<L>, EventError>)
      ensures ran.Err? <==> id !in payloads
      ensures ran.Err? ==> ran.error == NoSuchEvent
      ensures ran.Ok? ==> ran.value == payloads[id].listeners
    {
      if id !in payloads {
        return Err(NoSuchEvent);
      }
      ran := Ok(payloads[id].listeners);
    }

    /** isRegisteredPayloadID(id). */
    function IsRegisteredPayloadId(id: K): (r: bool)
      reads this
      ensures r <==> GetPayload(id).Ok?
    {
      id in payloads
    }

    /**
     * dispatchEvent(id, payload): a null payload is refused first, then an
     * unregistered `id`; otherwise the payload is stored and the listeners of
     * `id` run in attach order. A refused call changes nothing.
     */
    method DispatchEvent(id: K, payload: Option<V>) returns (ran: Result<seq<L>, EventError>)
      modifies this
      ensures payload.None? ==> ran == Err(NullPayload)
      ensures payload.Some? && id !in old(payloads) ==> ran == Err(NoSuchEvent)
      ensures ran.Err? ==> payloads == old(payloads)
      ensures ran.Ok? <==> payload.Some? && id in old(payloads)
      ensures ran.Ok? ==>
        && payloads.Keys == old(payloads).Keys
        && ran.value == old(payloads)[id].listeners
        && payloads[id] == Event(old(payloads)[id].listeners, payload)
        && GetPayload(id) == Ok(payload)
        && forall k | k in payloads && k != id :: payloads[k] == old(payloads)[k]
    {
      if payload.None? {
        return Err(NullPayload);
      }
      if id !in payloads {
        return Err(NoSuchEvent);
      }
      var e := payloads[id];
      payloads := payloads[id := e.(payload := payload)];
      ran := Ok(e.listeners);
    }
  }

  /** The static registry of pools by number. */
  class Pools<K(==), L, V> {
    var objects: map<int32, EventPool<K, L, V>>

    constructor()
      ensures objects == map[]
    {
      objects := map[];
    }

    /** getPool(id): the pool registered under `id`; panics when there is none. */
    function GetPool(id: int32): (r: Result<EventPool<K, L, V>, EventError>)
      reads this
      ensures r.Err? <==> id !in objects
      ensures r.Err? ==> r.error == NoSuchPool
      ensures r.Ok? ==> r.value == objects[id]
    {
      if id in objects then Ok(objects[id]) else Err(NoSuchPool)
    }

    /**
     * registerEventPool(id): panics when `id` is taken; otherwise a new,
     * empty pool is stored under `id` and `id` is returned unchanged.
     */
    method RegisterEventPool(id: int32) returns (r: Result<int32, EventError>)
      modifies this
      ensures id in old(objects) <==> r == Err(PoolExists)
      ensures id in old(objects) ==> objects == old(objects)
      ensures id !in old(objects) ==>
        && r == Ok(id)
        && objects.Keys == old(objects).Keys + {id}
        && fresh(objects[id]) && objects[id].payloads == map[]
        && forall k | k in old(objects) :: objects[k] == old(objects)[k]
    {
      if id in objects {
        return Err(PoolExists);
      }
      var pool := new EventPool();
      objects := objects[id := pool];
      r := Ok(id);
    }

    /** inferEventPool(id): the payload types registered in pool `id`; panics (through getPool) when there is no such pool. */
    function InferEventPool(id: int32): (r: Result<set<K>, EventError>)
      reads this, objects.Values
      ensures r.Err? <==> GetPool(id).Err?
      ensures r.Err? ==> r.error == NoSuchPool
      ensures r.Ok? ==> forall k | k in r.value :: objects[id].IsRegisteredPayloadId(k)
      ensures r.Ok? ==> forall k | k in objects[id].payloads :: k in r.value
    {
      if id in objects then Ok(objects[id].payloads.Keys) else Err(NoSuchPool)
    }
  }
}
