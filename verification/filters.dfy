/**
 The filter engine (`applyFilters`): up to three constraints, each applied only
 when its filter field is truthy, narrowing the record list while keeping its order.
 */
module Filters {
  import opened Wrappers
  import opened Seqs
  import opened Text
  import opened Records

  /** The filter object; the dashboard passes null for a control left empty. */
  datatype FilterSpec = FilterSpec(orderType: Option<string>, itemType: Option<string>, searchText: Option<string>)

  /** The `{}` filter: no constraint at all. */
  const NoFilter: FilterSpec := FilterSpec(None, None, None)

  /** A filter field is applied only when it is truthy: present and not "". */
  predicate IsActive(f: Option<string>)
  {
    f.Some? && f.value != ""
  }

  /** `field && field.toLowerCase().includes(needle)`: a missing or empty field never matches. */
  predicate FieldContains(field: Option<string>, needle: string)
  {
    field.Some? && field.value != "" && Includes(Lower(field.value), needle)
  }

  /** The search text occurs, ignoring case, in the item name or in the customer id. */
  predicate MatchesSearch(r: Record, text: string)
  {
    var needle := Lower(text);
    FieldContains(r.itemName, needle) || FieldContains(r.customerId, needle)
  }

  /** The order type constraint, vacuous when the field is not active. */
  predicate MatchesOrderType(spec: FilterSpec, r: Record)
  {
    IsActive(spec.orderType) ==> r.orderType == spec.orderType
  }

  predicate MatchesItemType(spec: FilterSpec, r: Record)
  {
    IsActive(spec.itemType) ==> r.itemType == spec.itemType
  }

  predicate MatchesSearchText(spec: FilterSpec, r: Record)
  {
    IsActive(spec.searchText) ==> MatchesSearch(r, spec.searchText.value)
  }

  /** A record passes a filter when it satisfies every active constraint. */
  predicate Matches(spec: FilterSpec, r: Record): (b: bool)
    ensures !IsActive(spec.orderType) && !IsActive(spec.itemType) && !IsActive(spec.searchText) ==> b
    ensures b && IsActive(spec.orderType) ==> r.orderType == spec.orderType
    ensures b && IsActive(spec.itemType) ==> r.itemType == spec.itemType
    ensures b && IsActive(spec.searchText) ==> r.itemName.Some? || r.customerId.Some?
  {
    MatchesOrderType(spec, r) && MatchesItemType(spec, r) && MatchesSearchText(spec, r)
  }

  /**
   `applyFilters`: the order type, item type and search constraints are applied
   one after another, each only when active. The result is what a single pass
   keeping the records that satisfy every active constraint gives, and so a
   subsequence of `data`.
   */
  function ApplyFilters(data: seq<Record>, spec: FilterSpec): (r: seq<Record>)
    ensures r == Filter((o: Record) => Matches(spec, o), data)
    ensures IsSubsequence(r, data)
  {
    var byOrderType :=
      if IsActive(spec.orderType) then Filter((o: Record) => o.orderType == spec.orderType, data) else data;
    var byItemType :=
      if IsActive(spec.itemType) then Filter((o: Record) => o.itemType == spec.itemType, byOrderType)
      else byOrderType;
    var r :=
      if IsActive(spec.searchText) then Filter((o: Record) => MatchesSearch(o, spec.searchText.value), byItemType)
      else byItemType;
    SinglePass(data, spec);
    FilterIsSubsequence((o: Record) => Matches(spec, o), data);
    r
  }

  /** A record is kept exactly when it is in the input and satisfies every active constraint. */
  lemma ApplyFiltersMembership(data: seq<Record>, spec: FilterSpec, x: Record)
    ensures x in ApplyFilters(data, spec) <==> x in data && Matches(spec, x)
  {
    FilterMembership((o: Record) => Matches(spec, o), data, x);
  }

  /** The three stages together filter once by the conjunction of the constraints. */
  lemma SinglePass(data: seq<Record>, spec: FilterSpec)
    ensures
      var byOrderType :=
        if IsActive(spec.orderType) then Filter((o: Record) => o.orderType == spec.orderType, data) else data;
      var byItemType :=
        if IsActive(spec.itemType) then Filter((o: Record) => o.itemType == spec.itemType, byOrderType)
        else byOrderType;
      var r :=
        if IsActive(spec.searchText) then Filter((o: Record) => MatchesSearch(o, spec.searchText.value), byItemType)
        else byItemType;
      r == Filter((o: Record) => Matches(spec, o), data)
  {
    var p1 := (o: Record) => MatchesOrderType(spec, o);
    var p2 := (o: Record) => MatchesItemType(spec, o);
    var p3 := (o: Record) => MatchesSearchText(spec, o);
    var p12 := (o: Record) => MatchesOrderType(spec, o) && MatchesItemType(spec, o);
    var byOrderType :=
      if IsActive(spec.orderType) then Filter((o: Record) => o.orderType == spec.orderType, data) else data;
    var byItemType :=
      if IsActive(spec.itemType) then Filter((o: Record) => o.itemType == spec.itemType, byOrderType)
      else byOrderType;
    var r :=
      if IsActive(spec.searchText) then Filter((o: Record) => MatchesSearch(o, spec.searchText.value), byItemType)
      else byItemType;
    if IsActive(spec.orderType) {
      FilterCongruent((o: Record) => o.orderType == spec.orderType, p1, data);
    } else {
      FilterAll(p1, data);
    }
    assert byOrderType == Filter(p1, data);
    if IsActive(spec.itemType) {
      FilterCongruent((o: Record) => o.itemType == spec.itemType, p2, byOrderType);
    } else {
      FilterAll(p2, byOrderType);
    }
    assert byItemType == Filter(p2, byOrderType);
    if IsActive(spec.searchText) {
      FilterCongruent((o: Record) => MatchesSearch(o, spec.searchText.value), p3, byItemType);
    } else {
      FilterAll(p3, byItemType);
    }
    assert r == Filter(p3, byItemType);
    FilterFuse(p1, p2, p12, data);
    FilterFuse(p12, p3, (o: Record) => Matches(spec, o), data);
  }

  /** With no active field the filter returns its input unchanged. */
  lemma NoActiveFieldIsIdentity(data: seq<Record>, spec: FilterSpec)
    requires !IsActive(spec.orderType) && !IsActive(spec.itemType) && !IsActive(spec.searchText)
    ensures ApplyFilters(data, spec) == data
  {
  }

  /** Applying one filter after another keeps the records that pass both. */
  lemma {:induction false} FilterThenFilter(data: seq<Record>, first: FilterSpec, second: FilterSpec)
    ensures ApplyFilters(ApplyFilters(data, first), second) ==
            Filter((o: Record) => Matches(first, o) && Matches(second, o), data)
  {
    FilterFuse((o: Record) => Matches(first, o), (o: Record) => Matches(second, o),
               (o: Record) => Matches(first, o) && Matches(second, o), data);
  }

  /** Filtering by order type and then by item type is filtering by both at once. */
  lemma OrderTypeThenItemType(data: seq<Record>, orderType: string, itemType: string)
    ensures ApplyFilters(ApplyFilters(data, FilterSpec(Some(orderType), None, None)), FilterSpec(None, Some(itemType), None))
         == ApplyFilters(data, FilterSpec(Some(orderType), Some(itemType), None))
  {
    var a := FilterSpec(Some(orderType), None, None);
    var b := FilterSpec(None, Some(itemType), None);
    var ab := FilterSpec(Some(orderType), Some(itemType), None);
    FilterThenFilter(data, a, b);
    FilterCongruent((o: Record) => Matches(a, o) && Matches(b, o), (o: Record) => Matches(ab, o), data);
  }

  /** Applying the same filter twice is the same as applying it once. */
  lemma FilterIdempotent(data: seq<Record>, spec: FilterSpec)
    ensures ApplyFilters(ApplyFilters(data, spec), spec) == ApplyFilters(data, spec)
  {
    FilterThenFilter(data, spec, spec);
    FilterCongruent((o: Record) => Matches(spec, o) && Matches(spec, o), (o: Record) => Matches(spec, o), data);
  }

  /** The search text is matched against the item name: "角" is found in "干煸豆角" but not in "鱼香肉丝". */
  lemma SearchScenario(r: Record)
    requires r.customerId.None?
    ensures r.itemName == Some("干煸豆角") ==> MatchesSearch(r, "角")
    ensures r.itemName == Some("鱼香肉丝") ==> !MatchesSearch(r, "角")
  {
    assert Lower("角") == "角";
    if r.itemName == Some("干煸豆角") {
      assert Lower("干煸豆角") == "干煸豆角";
      assert OccursAt("干煸豆角", "角", 3);
    }
    if r.itemName == Some("鱼香肉丝") {
      assert Lower("鱼香肉丝") == "鱼香肉丝";
    }
  }

  /** A search text found verbatim in a non-empty item name or customer id matches, whatever its case. */
  lemma VerbatimOccurrenceMatches(r: Record, text: string, i: int)
    requires (r.itemName.Some? && OccursAt(r.itemName.value, text, i)) ||
             (r.customerId.Some? && OccursAt(r.customerId.value, text, i))
    requires text != ""
    ensures MatchesSearch(r, text)
  {
    var field := if r.itemName.Some? && OccursAt(r.itemName.value, text, i) then r.itemName.value else r.customerId.value;
    LowerOccurs(field, text, i);
  }

  /** Lower-casing keeps an occurrence at the same position. */
  lemma LowerOccurs(s: string, t: string, i: int)
    requires OccursAt(s, t, i)
    ensures OccursAt(Lower(s), Lower(t), i)
  {
    assert forall k :: 0 <= k < |t| ==> Lower(s)[i..i + |t|][k] == LowerChar(s[i + k]) == LowerChar(t[k]);
  }
}
