/** `utils.unpack_singleton`, as its unit test pins it down
    (`trove/tests/unittests/common/test_utils.py`): a one-element list is
    replaced by its element, repeatedly; anything else is returned as it is.
    Strings are not unwrapped. */
module Utils {
  /** The Python values the test feeds in. */
  datatype PyValue = PNone | PInt(i: int) | PStr(s: string) | PList(items: seq<PyValue>)

  predicate IsSingleton(v: PyValue) {
    v.PList? && |v.items| == 1
  }

  function UnpackSingleton(v: PyValue): (r: PyValue)
    ensures !IsSingleton(r)
    ensures !IsSingleton(v) ==> r == v
  {
    if IsSingleton(v) then UnpackSingleton(v.items[0]) else v
  }

  /** `v` wrapped in `k` one-element lists. */
  function Wrap(v: PyValue, k: nat): (r: PyValue)
    ensures k > 0 ==> IsSingleton(r)
  {
    if k == 0 then v else PList([Wrap(v, k - 1)])
  }

  /** Unpacking undoes any number of wrappings of a value that is not itself
      a one-element list. */
  lemma {:induction false} UnpackUndoesWrap(v: PyValue, k: nat)
    requires !IsSingleton(v)
    ensures UnpackSingleton(Wrap(v, k)) == v
  {
    if k > 0 {
      UnpackUndoesWrap(v, k - 1);
    }
  }

  /** Every input is its result wrapped some number of times: nothing but
      singleton layers is removed. */
  lemma {:induction false} UnpackPeelsSingletons(v: PyValue)
    ensures exists k: nat :: Wrap(UnpackSingleton(v), k) == v
  {
    if IsSingleton(v) {
      UnpackPeelsSingletons(v.items[0]);
      var k: nat :| Wrap(UnpackSingleton(v.items[0]), k) == v.items[0];
      assert v == PList([v.items[0]]);
      assert Wrap(UnpackSingleton(v), k + 1) == v;
    } else {
      assert Wrap(UnpackSingleton(v), 0) == v;
    }
  }

  /** Unpacking twice is unpacking once. */
  lemma UnpackIdempotent(v: PyValue)
    ensures UnpackSingleton(UnpackSingleton(v)) == UnpackSingleton(v)
  {
  }

  /** The assertions of `test_unpack_singleton`. */
  lemma UnpackSingletonExamples()
    ensures UnpackSingleton(PList([PInt(1), PInt(2), PInt(3)])) == PList([PInt(1), PInt(2), PInt(3)])
    ensures UnpackSingleton(PList([PInt(0)])) == PInt(0)
    ensures UnpackSingleton(PStr("test")) == PStr("test")
    ensures UnpackSingleton(PList([PStr("test")])) == PStr("test")
    ensures UnpackSingleton(PList([])) == PList([])
    ensures UnpackSingleton(PNone) == PNone
    ensures UnpackSingleton(PList([PNone, PNone])) == PList([PNone, PNone])
    ensures UnpackSingleton(PList([PList([PStr("test")])])) == PStr("test")
    ensures UnpackSingleton(PList([PList([PInt(1), PInt(2), PInt(3)])])) == PList([PInt(1), PInt(2), PInt(3)])
    ensures UnpackSingleton(PList([PList([PList([PInt(1)])])])) == PInt(1)
    ensures UnpackSingleton(PList([PList([PInt(1)]), PList([PInt(2)])])) == PList([PList([PInt(1)]), PList([PInt(2)])])
    ensures UnpackSingleton(PList([PStr("a"), PStr("b")])) == PList([PStr("a"), PStr("b")])
  {
    UnpackUndoesWrap(PInt(1), 3);
    assert Wrap(PInt(1), 3) == PList([PList([PList([PInt(1)])])]);
    UnpackUndoesWrap(PStr("test"), 2);
    assert Wrap(PStr("test"), 2) == PList([PList([PStr("test")])]);
  }
}
