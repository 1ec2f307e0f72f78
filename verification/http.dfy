/** One HTTP exchange as the browser's `fetch` (or axios) reports it to the pages.
    The network itself is outside the model: an exchange is an input. */
module Http {

  import opened Values

  /** The response body as `response.json()` delivers it. */
  datatype Body<+P> = Json(payload: P) | Malformed(message: string)

  /** Either the request never got an answer (fetch rejects), or a status and a body came back. */
  datatype Exchange<+P> = NetworkFailure(message: string) | Responded(status: int, body: Body<P>)

  /** `response.ok`: the status is in the range 200-299. Axios uses the same range to decide
      whether a request resolves or rejects. */
  predicate IsOk(status: int) {
    200 <= status <= 299
  }

  const NotFound: int := 404

  /** A query string as the ordered key/value entries appended to a `URLSearchParams`. */
  type Query = seq<(string, string)>

  /** The value of the first entry with the given key, as `URLSearchParams.get` reports it. */
  function Lookup<K(==), V>(q: seq<(K, V)>, key: K): (r: Option<V>)
    ensures r.None? <==> forall i :: 0 <= i < |q| ==> q[i].0 != key
    ensures r.Some? ==> exists i :: 0 <= i < |q| && q[i] == (key, r.value)
  {
    if |q| == 0 then None
    else if q[0].0 == key then Some(q[0].1)
    else
      var r := Lookup(q[1..], key);
      assert forall i :: 0 < i < |q| ==> q[i] == q[1..][i - 1];
      r
  }

  /** Looking a key up in two query lists joined: the first list wins when it has the key. */
  lemma {:induction false} LookupAppend<K, V>(q1: seq<(K, V)>, q2: seq<(K, V)>, key: K)
    ensures Lookup(q1 + q2, key) == if Lookup(q1, key).Some? then Lookup(q1, key) else Lookup(q2, key)
  {
    if |q1| > 0 {
      assert (q1 + q2)[0] == q1[0];
      assert (q1 + q2)[1..] == q1[1..] + q2;
      LookupAppend(q1[1..], q2, key);
    } else {
      assert q1 + q2 == q2;
    }
  }

  /** Each key at most once. */
  predicate DistinctKeys<K(==), V>(l: seq<(K, V)>) {
    forall i, j :: 0 <= i < j < |l| ==> l[i].0 != l[j].0
  }

  /** With each key at most once, looking up an entry's key finds that entry's value. */
  lemma {:induction false} LookupAt<K, V>(l: seq<(K, V)>, i: nat)
    requires DistinctKeys(l) && i < |l|
    ensures Lookup(l, l[i].0) == Some(l[i].1)
  {
    if i > 0 {
      assert l[0].0 != l[i].0;
      assert forall j :: 0 <= j < |l| - 1 ==> l[1..][j] == l[j + 1];
      LookupAt(l[1..], i - 1);
    }
  }
}
