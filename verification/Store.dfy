/** The in-memory store (store/memory.go). */
module Store {
  import opened Wrappers
  import opened Records

  class Memory {
    var data: Db

    constructor ()
      ensures data == map[]
    {
      data := map[];
    }

    method Get(now: real, key: Key) returns (r: Option<Value>)
      ensures r == if Live(data, now, key) then Some(data[key].value) else None
      ensures r.Some? <==> key in data && (data[key].expireAt == ZERO_TIME || now <= data[key].expireAt as real)
    {
      if key !in data {
        return None;
      }
      var e := data[key];
      if e.expireAt != ZERO_TIME && now > e.expireAt as real {
        return None;
      }
      return Some(e.value);
    }

    method Set(key: Key, v: Value, expireAt: int)
      modifies this
      ensures data == old(data)[key := Entry(v, expireAt)]
    {
      data := data[key := Entry(v, expireAt)];
    }

    method Delete(key: Key)
      modifies this
      ensures data == old(data) - {key}
    {
      data := data - {key};
    }

    method Exists(now: real, key: Key) returns (b: bool)
      ensures b == Live(data, now, key)
      ensures b <==> key in data && (data[key].expireAt == ZERO_TIME || now <= data[key].expireAt as real)
    {
      if key !in data {
        return false;
      }
      var e := data[key];
      if e.expireAt != ZERO_TIME && now > e.expireAt as real {
        return false;
      }
      return true;
    }
  }
}
