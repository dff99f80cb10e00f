/** The in-memory key-value store with per-key expiry timers.
    Time is abstracted away: a scheduled expiry task is an entry in the timer
    table that is either live or cancelled, and `FireExpiry` plays the job
    that the scheduler runs once the delay has passed. */
module KeyValueStores {
  import opened JavaLang

  /** The timer table after `cancel(false)` on the key's task, if it has one:
      the entry is marked, never removed. */
  function Cancelled(tasks: map<string, bool>, key: string): (r: map<string, bool>)
    ensures r.Keys == tasks.Keys
    ensures key in r ==> !r[key]
    ensures forall k :: k in r && k != key ==> r[k] == tasks[k]
  {
    if key in tasks then tasks[key := false] else tasks
  }

  class KeyValueStore {
    /** `store`: key to value. */
    var store: map<string, string>
    /** `expirationTasks`: key to its most recent expiry task; `true` while
        that task has not been cancelled. */
    var expirationTasks: map<string, bool>

    /** A live timer always guards a stored key: the only way a key leaves the
        store while its timer is live is that timer firing, which drops both. */
    ghost predicate Valid()
      reads this
    {
      forall k :: k in expirationTasks && expirationTasks[k] ==> k in store
    }

    /** The private constructor behind `getInstance`: both tables empty. */
    constructor ()
      ensures Valid()
      ensures store == map[] && expirationTasks == map[]
    {
      store := map[];
      expirationTasks := map[];
    }

    /** `get`: the stored value, `None` for `null`. */
    function Get(key: string): (r: Option<string>)
      reads this
      ensures r.None? <==> key !in store
      ensures r.Some? ==> r.value == store[key]
    {
      if key in store then Some(store[key]) else None
    }

    /** `put(key, value)`: stores the value and leaves the timer table alone, so
        a live timer for the key still removes the new value when it fires. */
    method Put(key: string, value: string)
      requires Valid()
      modifies this`store
      ensures Valid()
      ensures store == old(store)[key := value]
      ensures Get(key) == Some(value)
      ensures forall k :: k != key ==> Get(k) == old(Get(k))
    {
      store := store[key := value];
    }

    /** `cancelExpiration`: marks the key's task cancelled; the entry stays in
        the table until a later task for the key replaces it. */
    method CancelExpiration(key: string)
      requires Valid()
      modifies this`expirationTasks
      ensures Valid()
      ensures expirationTasks == Cancelled(old(expirationTasks), key)
    {
      if key in expirationTasks {
        expirationTasks := expirationTasks[key := false];
      }
    }

    /** `scheduleExpiration`: installs a fresh live task for the key. */
    method ScheduleExpiration(key: string)
      requires key in store
      requires Valid()
      modifies this`expirationTasks
      ensures Valid()
      ensures expirationTasks == old(expirationTasks)[key := true]
    {
      expirationTasks := expirationTasks[key := true];
    }

    /** `put(key, value, ttl)`: cancels the key's pending task, stores the value,
        and schedules one fresh task. The delay only decides when `FireExpiry`
        may run, so it does not appear in the state. */
    method PutWithTtl(key: string, value: string, ttlMilliseconds: int)
      requires Valid()
      modifies this
      ensures Valid()
      ensures store == old(store)[key := value]
      ensures expirationTasks == old(expirationTasks)[key := true]
    {
      CancelExpiration(key);
      Put(key, value);
      ScheduleExpiration(key);
    }

    /** `delete`: cancels the key's task, then removes the key. */
    method Delete(key: string)
      requires Valid()
      modifies this
      ensures Valid()
      ensures store == old(store) - {key}
      ensures Get(key).None?
      ensures expirationTasks == Cancelled(old(expirationTasks), key)
    {
      CancelExpiration(key);
      store := store - {key};
    }

    /** The scheduled task of `scheduleExpiration` running for `key`. Only a live
        task runs: a cancelled one never does, and then nothing changes. A live
        one removes the key from both tables and touches no other key. */
    method FireExpiry(key: string)
      requires Valid()
      modifies this
      ensures Valid()
      ensures old(key in expirationTasks && expirationTasks[key]) ==>
        old(key in store) && store == old(store) - {key} && expirationTasks == old(expirationTasks) - {key}
      ensures !old(key in expirationTasks && expirationTasks[key]) ==>
        store == old(store) && expirationTasks == old(expirationTasks)
    {
      if key in expirationTasks && expirationTasks[key] {
        store := store - {key};
        expirationTasks := expirationTasks - {key};
      }
    }
  }
}
