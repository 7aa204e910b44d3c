/** Event tags are untyped lists of strings, looked up by their first element
    (`tags.find(t => t[0] === key)`, `tags.some(...)`, `tags.filter(...)`). */
module Tags {
  import opened Wrappers

  type Tag = seq<string>

  /** `t[0] === key`; an empty tag has no first element and matches nothing. */
  predicate Keyed(t: Tag, key: string) {
    |t| > 0 && t[0] == key
  }

  /** `tags.some(t => t[0] === key)` */
  predicate Has(tags: seq<Tag>, key: string) {
    exists i :: 0 <= i < |tags| && Keyed(tags[i], key)
  }

  /** `tags.find(t => t[0] === key)`: the first tag with that key. */
  function Find(tags: seq<Tag>, key: string): (r: Option<Tag>)
    ensures r.Some? <==> Has(tags, key)
    ensures r.Some? ==> Keyed(r.value, key)
    ensures r.Some? ==> exists i :: 0 <= i < |tags| && tags[i] == r.value
                                     && forall j :: 0 <= j < i ==> !Keyed(tags[j], key)
  {
    if tags == [] then None
    else if Keyed(tags[0], key) then Some(tags[0])
    else
      var r := Find(tags[1..], key);
      assert Has(tags, key) ==> Has(tags[1..], key) by {
        if Has(tags, key) {
          var i :| 0 <= i < |tags| && Keyed(tags[i], key);
          assert i > 0 && Keyed(tags[1..][i - 1], key);
        }
      }
      assert r.Some? ==> Has(tags, key) by {
        if r.Some? {
          var i :| 0 <= i < |tags[1..]| && Keyed(tags[1..][i], key);
          assert Keyed(tags[i + 1], key);
        }
      }
      if r.Some? then
        assert exists i :: 0 <= i < |tags| && tags[i] == r.value
                           && forall j :: 0 <= j < i ==> !Keyed(tags[j], key) by {
          var i :| 0 <= i < |tags[1..]| && tags[1..][i] == r.value
                   && forall j :: 0 <= j < i ==> !Keyed(tags[1..][j], key);
          assert tags[i + 1] == r.value;
          forall j | 0 <= j < i + 1 ensures !Keyed(tags[j], key) {
            if j > 0 { assert tags[j] == tags[1..][j - 1]; }
          }
        }
        r
      else r
  }

  /** `t[i]`, with `None` for `undefined` past the end. */
  function Field(t: Tag, i: nat): Option<string> {
    if i < |t| then Some(t[i]) else None
  }

  /** `tags.find(t => t[0] === key)?.[1]` */
  function Value(tags: seq<Tag>, key: string): Option<string> {
    match Find(tags, key)
    case None => None
    case Some(t) => Field(t, 1)
  }

  /** `v || fallback` for a string that may be undefined: the empty string is falsy too. */
  function OrElse(v: Option<string>, fallback: string): string {
    if v.Some? && v.value != "" then v.value else fallback
  }

  /** `${v}` in a template literal: undefined prints as "undefined". */
  function Text(v: Option<string>): string {
    v.GetOr("undefined")
  }

  /** `tags.filter(t => t[0] === key).map(t => t[1])` */
  function Values(tags: seq<Tag>, key: string): (r: seq<Option<string>>)
    ensures |r| <= |tags|
  {
    if tags == [] then []
    else if Keyed(tags[0], key) then [Field(tags[0], 1)] + Values(tags[1..], key)
    else Values(tags[1..], key)
  }

  /** `filter` then `map` distributes over concatenation. */
  lemma {:induction false} ValuesAppend(a: seq<Tag>, b: seq<Tag>, key: string)
    ensures Values(a + b, key) == Values(a, key) + Values(b, key)
  {
    if a != [] {
      assert (a + b)[1..] == a[1..] + b;
      ValuesAppend(a[1..], b, key);
    } else {
      assert a + b == b;
    }
  }

  /** One tag contributes its second element when it has the key, and
      nothing otherwise. */
  lemma ValuesSingle(t: Tag, key: string)
    ensures Values([t], key) == if Keyed(t, key) then [Field(t, 1)] else []
  {
    assert [t][1..] == [];
  }

  /** Tags of other keys contribute nothing. */
  lemma {:induction false} ValuesAbsent(tags: seq<Tag>, key: string)
    requires forall j :: 0 <= j < |tags| ==> !Keyed(tags[j], key)
    ensures Values(tags, key) == []
  {
    if tags != [] {
      ValuesAbsent(tags[1..], key);
    }
  }

  /** The tag `find` returns, when it is the `i`-th. */
  lemma FindFirst(tags: seq<Tag>, key: string, i: nat)
    requires i < |tags| && Keyed(tags[i], key)
    requires forall j :: 0 <= j < i ==> !Keyed(tags[j], key)
    ensures Find(tags, key) == Some(tags[i])
  {
    assert Has(tags, key);
    var t := Find(tags, key).value;
    var k :| 0 <= k < |tags| && tags[k] == t && forall j :: 0 <= j < k ==> !Keyed(tags[j], key);
    assert k == i;
  }

  /** `find` returns undefined when no tag has the key. */
  lemma FindAbsent(tags: seq<Tag>, key: string)
    requires forall j :: 0 <= j < |tags| ==> !Keyed(tags[j], key)
    ensures Find(tags, key) == None
  {
  }
}
