/** Query strings as ordered lists of key/value pairs, the way
    `URLSearchParams` holds them once decoded. Percent-encoding is not part
    of this model. */
module QueryString {
  import opened Basics

  datatype Param = Param(key: string, value: string)

  /** `URLSearchParams.get`: the value of the first pair with this key,
      None (`null`) when there is none. */
  function Get(ps: seq<Param>, key: string): (r: Option<string>)
    ensures r.None? <==> forall i :: 0 <= i < |ps| ==> ps[i].key != key
    ensures r.Some? ==> exists i :: 0 <= i < |ps| && ps[i] == Param(key, r.value)
                                    && forall j :: 0 <= j < i ==> ps[j].key != key
  {
    match Find((p: Param) => p.key == key, ps)
    case None => None
    case Some(p) => Some(p.value)
  }

  /** `params.get(key) || ''`. */
  function GetOrEmpty(ps: seq<Param>, key: string): string {
    Get(ps, key).GetOr("")
  }

  /** `append` when the value is non-empty, the `if (value) params.append`
      idiom. */
  function AppendIfSet(ps: seq<Param>, key: string, value: string): (r: seq<Param>)
    ensures value == "" ==> r == ps
    ensures value != "" ==> r == ps + [Param(key, value)]
  {
    if value == "" then ps else ps + [Param(key, value)]
  }

  /** Appending a pair leaves every key already present readable as before
      and makes a new key read as the appended value. */
  lemma GetAfterAppend(ps: seq<Param>, p: Param, key: string)
    ensures Get(ps, key).Some? ==> Get(ps + [p], key) == Get(ps, key)
    ensures Get(ps, key).None? && p.key == key ==> Get(ps + [p], key) == Some(p.value)
    ensures Get(ps, key).None? && p.key != key ==> Get(ps + [p], key).None?
  {
    var qs := ps + [p];
    if Get(ps, key).Some? {
      var i :| 0 <= i < |ps| && ps[i] == Param(key, Get(ps, key).value)
                && forall j :: 0 <= j < i ==> ps[j].key != key;
      assert qs[i] == ps[i];
      var k :| 0 <= k < |qs| && qs[k] == Param(key, Get(qs, key).value)
                && forall j :: 0 <= j < k ==> qs[j].key != key;
      assert k == i;
    } else if p.key == key {
      assert qs[|ps|] == p;
      var k :| 0 <= k < |qs| && qs[k] == Param(key, Get(qs, key).value)
                && forall j :: 0 <= j < k ==> qs[j].key != key;
      assert k == |ps|;
    } else {
      assert forall i :: 0 <= i < |qs| ==> qs[i].key != key by {
        forall i | 0 <= i < |qs| ensures qs[i].key != key {
          if i < |ps| { assert qs[i] == ps[i]; }
        }
      }
    }
  }
}
