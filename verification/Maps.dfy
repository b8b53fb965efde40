/** Sizes of maps. */
module Maps {

  lemma SubmapSize<K, V>(sub: map<K, V>, m: map<K, V>)
    requires sub.Keys <= m.Keys
    ensures |sub| <= |m| && (|sub| == |m| ==> sub.Keys == m.Keys)
  {
    assert |m.Keys| == |sub.Keys| + |m.Keys - sub.Keys| by {
      assert m.Keys == sub.Keys + (m.Keys - sub.Keys);
    }
  }
}
