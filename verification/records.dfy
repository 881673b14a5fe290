/** Subscripting a keyed record by a list of keys, as the prediction
    endpoint does when it reads JSON fields one by one: the values come
    back in key order, and the first absent key raises a KeyError naming
    it. The training script's column selection also uses it; there the
    error names only the first missing column, where the DataFrame's error
    lists all of them. */
module Records {
  import opened Wrappers

  /** The values of `keys` in `m`, in order, or the first key `m` lacks. */
  function Lookup<V>(m: map<string, V>, keys: seq<string>): (r: Result<seq<V>, string>)
    ensures r.Success? <==> forall i :: 0 <= i < |keys| ==> keys[i] in m
    ensures r.Success? ==>
              && |r.value| == |keys|
              && forall i :: 0 <= i < |keys| ==> r.value[i] == m[keys[i]]
    ensures r.Failure? ==>
              exists i :: 0 <= i < |keys| && keys[i] == r.error && keys[i] !in m
                          && forall j :: 0 <= j < i ==> keys[j] in m
    decreases |keys|
  {
    if |keys| == 0 then Success([])
    else if keys[0] !in m then Failure(keys[0])
    else
      match Lookup(m, keys[1..])
      case Failure(k) =>
        assert exists i :: 0 <= i < |keys[1..]| && keys[1..][i] == k && keys[1..][i] !in m
                           && forall j :: 0 <= j < i ==> keys[1..][j] in m;
        var i :| 0 <= i < |keys[1..]| && keys[1..][i] == k && keys[1..][i] !in m
                 && forall j :: 0 <= j < i ==> keys[1..][j] in m;
        assert keys[i + 1] == k && keys[i + 1] !in m;
        assert forall j :: 0 <= j < i + 1 ==> keys[j] in m by {
          forall j | 0 <= j < i + 1 ensures keys[j] in m {
            if j > 0 { assert keys[j] == keys[1..][j - 1]; }
          }
        }
        Failure(k)
      case Success(rest) => Success([m[keys[0]]] + rest)
  }
}
