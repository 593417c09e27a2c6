/**
 * What the API handlers share: request verbs, the status codes they answer
 * with, the reply shape, document ids, and `find` over a collection.
 */
module Http {
  import opened Wrappers

  /** A store-assigned document id, shared by menu items and orders. */
  type Id = nat

  datatype Verb = Get | Post | Put | Delete | Patch | Head | Options

  const OK := 200
  const CREATED := 201
  const BAD_REQUEST := 400
  const NOT_FOUND := 404
  const METHOD_NOT_ALLOWED := 405
  const SERVER_ERROR := 500

  /** A status code and, when the JSON carries one, the record or list it returns. */
  datatype Reply<T> = Reply(status: int, body: Option<T>)

  /** No two positions of `ks` hold the same id. */
  predicate Distinct(ks: seq<Id>) {
    forall i, j :: 0 <= i < j < |ks| ==> ks[i] != ks[j]
  }

  /**
   * The cursor of `Model.find`: every id of the collection exactly once. The
   * store promises no order, so neither does this.
   */
  method FindIds<V>(m: map<Id, V>) returns (ks: seq<Id>)
    ensures Distinct(ks) && |ks| == |m|
    ensures forall k :: k in ks <==> k in m
  {
    ks := [];
    var rest := m.Keys;
    while rest != {}
      invariant rest <= m.Keys
      invariant forall k :: k in ks <==> k in m && k !in rest
      invariant Distinct(ks)
      invariant |ks| + |rest| == |m|
      decreases |rest|
    {
      var k :| k in rest;
      ks := ks + [k];
      rest := rest - {k};
    }
  }
}
