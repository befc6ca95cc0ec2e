/** The vocabulary shared by the allocators (types.hpp, error.hpp). */
module AllocTypes {
  datatype ErrorCode =
    | SizeTooLarge | AlignmentUnsupported | OutOfMemory | CapacityExceeded | NotSupported
    | InvalidHandle | DoubleFree | InitFailed

  /** AllocationResult: a published id and address, or a structured error. */
  datatype Outcome =
    | Granted(id: nat, addr: nat, size: nat, alignment: nat, reused: bool)
    | Failed(error: ErrorCode)

  datatype Status = Ok | Err(error: ErrorCode)

  ghost predicate Injective<K, V>(m: map<K, V>)
  {
    forall a, b :: a in m && b in m && a != b ==> m[a] != m[b]
  }

  lemma LiveAdd<V>(m: map<nat, V>, id: nat, v: V)
    requires Injective(m) && id !in m && v !in m.Values
    ensures Injective(m[id := v]) && m[id := v].Values == m.Values + {v}
    ensures |m[id := v]| == |m| + 1
  {
    var m' := m[id := v];
    forall a, b | a in m' && b in m' && a != b ensures m'[a] != m'[b] {
      if a == id { assert m[b] in m.Values; }
      if b == id { assert m[a] in m.Values; }
    }
    assert m'.Values == m.Values + {v} by {
      assert m'[id] == v;
      forall w | w in m.Values ensures w in m'.Values {
        var k :| k in m && m[k] == w;
        assert k in m' && m'[k] == w;
      }
    }
  }

  lemma LiveRemove<V>(m: map<nat, V>, id: nat)
    requires Injective(m) && id in m
    ensures Injective(m - {id}) && (m - {id}).Values == m.Values - {m[id]}
    ensures |m - {id}| == |m| - 1
  {
    var m' := m - {id};
    assert m == m'[id := m[id]];
    forall w | w in m.Values && w != m[id] ensures w in m'.Values {
      var k :| k in m && m[k] == w;
      assert k in m' && m'[k] == w;
    }
    assert m'.Keys == m.Keys - {id};
  }

  lemma {:induction false} InjectiveCount<V>(m: map<nat, V>)
    requires Injective(m)
    ensures |m.Values| == |m|
    decreases |m|
  {
    if m != map[] {
      var id :| id in m;
      LiveRemove(m, id);
      InjectiveCount(m - {id});
      assert m[id] in m.Values;
      assert m.Values == (m - {id}).Values + {m[id]};
    }
  }
}
