/** The three constant tables of the report generator and the reverse lookup
    from a Word label to the Excel column it is read from. */
module HeaderTables {

  datatype Option<T> = None | Some(value: T)

  /** The Excel-header -> Word-label dictionary, as its (key, value) pairs in
      insertion order.  Keys are matched exactly: 'Risk Severity ' keeps its
      trailing space. */
  const HeaderMapping: seq<(string, string)> := [
    ("Sr No.", "Sr No"),
    ("Vulnerability ID(CVE/CWE)", "CVE/CWE"),
    ("Vulnerability Name", "Observation/ Vulnerability Title"),
    ("Risk Severity ", "Severity"),
    ("Impact", "Impact"),
    ("Remediation", "Recommendation"),
    ("Asset Details", "Affected Endpoint"),
    ("Reference", "Reference")
  ]

  /** Labels that have no source column. */
  const ExtraRows: seq<string> := [
    "Detailed observation / Vulnerable point",
    "New or Repeat observation",
    "Management Comment",
    "Final Status"
  ]

  /** The order in which labels are emitted in every table. */
  const CombinedOrder: seq<string> := [
    "Sr No",
    "Affected Endpoint",
    "Observation/ Vulnerability Title",
    "Detailed observation / Vulnerable point",
    "CVE/CWE",
    "Impact",
    "Severity",
    "Recommendation",
    "Reference",
    "New or Repeat observation",
    "Management Comment",
    "Final Status"
  ]

  const NewOrRepeatLabel: string := "New or Repeat observation"
  const FinalStatusLabel: string := "Final Status"

  /** The Excel headers of the mapping, in insertion order. */
  function MappingKeys(): (ks: seq<string>)
    ensures |ks| == |HeaderMapping|
    ensures forall i :: 0 <= i < |ks| ==> ks[i] == HeaderMapping[i].0
  {
    seq(|HeaderMapping|, i requires 0 <= i < |HeaderMapping| => HeaderMapping[i].0)
  }

  /** The Word labels of the mapping, in insertion order. */
  function MappingValues(): (vs: seq<string>)
    ensures |vs| == |HeaderMapping|
    ensures forall i :: 0 <= i < |vs| ==> vs[i] == HeaderMapping[i].1
  {
    seq(|HeaderMapping|, i requires 0 <= i < |HeaderMapping| => HeaderMapping[i].1)
  }

  predicate Distinct<T(==)>(s: seq<T>)
  {
    forall i, j :: 0 <= i < j < |s| ==> s[i] != s[j]
  }

  /** Python's `list.index`: the position of the FIRST occurrence of `x`. */
  function IndexOf<T(==)>(s: seq<T>, x: T): (i: nat)
    requires x in s
    ensures i < |s| && s[i] == x
    ensures forall j :: 0 <= j < i ==> s[j] != x
  {
    if s[0] == x then 0 else 1 + IndexOf(s[1..], x)
  }

  /** In a sequence without repetitions, `index` finds the one position that
      holds the element. */
  lemma IndexOfDistinct<T>(s: seq<T>, i: nat)
    requires Distinct(s) && i < |s|
    ensures IndexOf(s, s[i]) == i
  {
  }

  /** The reverse lookup from a Word label to its Excel header: the key at the
      position of the label's first occurrence among the values, or None when
      `field` is not one of the mapping's values. */
  function ReverseLookup(field: string): (k: Option<string>)
    ensures k.Some? <==> field in MappingValues()
    ensures k.Some? ==> (k.value, field) in HeaderMapping
  {
    if field in MappingValues() then
      var i := IndexOf(MappingValues(), field);
      Some(MappingKeys()[i])
    else None
  }

  lemma MappingKeysDistinct()
    ensures Distinct(MappingKeys())
  {
  }

  lemma MappingValuesDistinct()
    ensures Distinct(MappingValues())
  {
  }

  /** The reverse lookup inverts the mapping: for every entry, looking up its
      value gives back its key. */
  lemma {:induction false} ReverseLookupInverts(i: nat)
    requires i < |HeaderMapping|
    ensures ReverseLookup(HeaderMapping[i].1) == Some(HeaderMapping[i].0)
  {
    MappingValuesDistinct();
    IndexOfDistinct(MappingValues(), i);
  }

  /** ... and it is the unique key mapped to `field`. */
  lemma {:induction false} ReverseLookupUnique(k: string, field: string)
    requires (k, field) in HeaderMapping
    ensures ReverseLookup(field) == Some(k)
  {
    var i :| 0 <= i < |HeaderMapping| && HeaderMapping[i] == (k, field);
    ReverseLookupInverts(i);
  }

  /** `combined_order` holds twelve distinct labels and is exactly the disjoint
      union of the mapping's values and `extra_rows`. */
  lemma CombinedOrderDistinct()
    ensures |CombinedOrder| == 12 && Distinct(CombinedOrder)
  {
  }

  lemma CombinedOrderCovers()
    ensures forall l :: l in CombinedOrder <==> l in MappingValues() || l in ExtraRows
  {
    assert MappingValues() == [
      "Sr No", "CVE/CWE", "Observation/ Vulnerability Title", "Severity",
      "Impact", "Recommendation", "Affected Endpoint", "Reference"];
  }

  lemma ValuesExtraDisjoint()
    ensures forall l :: l in MappingValues() ==> l !in ExtraRows
  {
    assert MappingValues() == [
      "Sr No", "CVE/CWE", "Observation/ Vulnerability Title", "Severity",
      "Impact", "Recommendation", "Affected Endpoint", "Reference"];
  }

  /** In a sequence without repetitions every element occurs once. */
  lemma {:induction false} DistinctOccursOnce<T>(s: seq<T>, x: T)
    requires Distinct(s)
    ensures multiset(s)[x] == if x in s then 1 else 0
  {
    if s != [] {
      assert s == [s[0]] + s[1..];
      assert Distinct(s[1..]) by {
        forall i, j | 0 <= i < j < |s[1..]| ensures s[1..][i] != s[1..][j] {
          assert s[1..][i] == s[i + 1] && s[1..][j] == s[j + 1];
        }
      }
      DistinctOccursOnce(s[1..], x);
      assert s[0] !in s[1..] by {
        forall j | 0 <= j < |s[1..]| ensures s[1..][j] != s[0] {
          assert s[1..][j] == s[j + 1];
        }
      }
    }
  }

  /** A repetition-free sequence whose elements are those of two disjoint
      repetition-free sequences is their multiset union. */
  lemma {:induction false} DisjointUnion<T>(a: seq<T>, b: seq<T>, c: seq<T>)
    requires Distinct(a) && Distinct(b) && Distinct(c)
    requires forall x :: x in a <==> x in b || x in c
    requires forall x :: x in b ==> x !in c
    ensures multiset(a) == multiset(b) + multiset(c)
  {
    forall x ensures multiset(a)[x] == (multiset(b) + multiset(c))[x] {
      DistinctOccursOnce(a, x);
      DistinctOccursOnce(b, x);
      DistinctOccursOnce(c, x);
    }
  }

  /** `combined_order` is, as a multiset of labels, exactly the disjoint union
      of the mapping's values and `extra_rows`: every label of the one comes
      from exactly one of the other two. */
  lemma {:induction false} CombinedOrderPartition()
    ensures multiset(CombinedOrder) == multiset(MappingValues()) + multiset(ExtraRows)
  {
    CombinedOrderDistinct();
    CombinedOrderCovers();
    ValuesExtraDisjoint();
    MappingValuesDistinct();
    ExtraRowsDistinct();
    DisjointUnion(CombinedOrder, MappingValues(), ExtraRows);
  }

  lemma ExtraRowsDistinct()
    ensures Distinct(ExtraRows)
  {
  }

  /** The two labels with constant values are extra rows, not mapped labels. */
  lemma SpecialLabelsAreExtra()
    ensures NewOrRepeatLabel in ExtraRows && NewOrRepeatLabel !in MappingValues()
    ensures FinalStatusLabel in ExtraRows && FinalStatusLabel !in MappingValues()
  {
    assert MappingValues() == [
      "Sr No", "CVE/CWE", "Observation/ Vulnerability Title", "Severity",
      "Impact", "Recommendation", "Affected Endpoint", "Reference"];
  }
}
