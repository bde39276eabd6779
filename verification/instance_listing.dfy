/** `lookupInstances`: the instances of a region, ordered by lifecycle
    state and then by lower-cased name. */
module InstanceListing {
  import opened Text
  import opened Sorting
  import opened AwsUtils

  /** The comparator of `lookupInstances`: states compare first, and names,
      lower-cased, break ties between equal states. */
  predicate InstanceLe(a: InstanceRecord, b: InstanceRecord) {
    || (a.state != b.state && StrLe(a.state, b.state))
    || (a.state == b.state && StrLe(Lower(a.name), Lower(b.name)))
  }

  lemma InstanceLeIsTotalPreorder()
    ensures TotalPreorder(InstanceLe)
  {
    forall a, b ensures InstanceLe(a, b) || InstanceLe(b, a) {
      StrLeTotal(a.state, b.state);
      StrLeTotal(Lower(a.name), Lower(b.name));
    }
    forall a, b, c | InstanceLe(a, b) && InstanceLe(b, c) ensures InstanceLe(a, c) {
      if a.state == b.state == c.state {
        StrLeTransitive(Lower(a.name), Lower(b.name), Lower(c.name));
      } else if a.state != b.state && b.state != c.state {
        StrLeTransitive(a.state, b.state, c.state);
        if a.state == c.state {
          StrLeAntisymmetric(a.state, b.state);
        }
      }
    }
  }

  /** The fetched instances, sorted in place by the comparator. */
  function LookupInstances(fetched: seq<InstanceRecord>): (sorted: seq<InstanceRecord>)
    ensures multiset(sorted) == multiset(fetched)
    ensures forall i, j :: 0 <= i < j < |sorted| ==>
      || (sorted[i].state != sorted[j].state && StrLe(sorted[i].state, sorted[j].state))
      || (sorted[i].state == sorted[j].state && StrLe(Lower(sorted[i].name), Lower(sorted[j].name)))
  {
    InstanceLeIsTotalPreorder();
    Sort(InstanceLe, fetched)
  }
}
