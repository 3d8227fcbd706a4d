/**
 * The clean-up `set_professions_for_provider` applies to the submitted names before it
 * replaces the provider's list: strip each name, drop empty ones, and drop any name equal
 * ignoring case to one already kept.
 */
module Professions {
  import opened Models
  import opened Text
  import opened Seqs

  /** `any(existing.lower() == n.lower() for existing in cleaned)`. */
  predicate ContainsFold(names: seq<string>, n: string) {
    exists i :: 0 <= i < |names| && Lower(names[i]) == Lower(n)
  }

  /** One iteration of the clean-up loop on the list built so far. */
  function CleanStep(cleaned: seq<string>, name: string): seq<string> {
    if name == "" then cleaned
    else
      var n := Strip(name);
      if n == "" || ContainsFold(cleaned, n) then cleaned else cleaned + [n]
  }

  /** The `cleaned` list after the loop has seen all of `names`. */
  function Cleaned(names: seq<string>): seq<string>
    decreases |names|
  {
    if names == [] then [] else CleanStep(Cleaned(names[..|names| - 1]), names[|names| - 1])
  }

  /** The kept names: stripped, non-empty, and pairwise different ignoring case. */
  predicate WellFormed(names: seq<string>) {
    && (forall i :: 0 <= i < |names| ==> Strip(names[i]) == names[i] && names[i] != "")
    && (forall i, j :: 0 <= i < j < |names| ==> Lower(names[i]) != Lower(names[j]))
  }

  /** Name `i` is kept: it is non-empty once stripped, and no earlier name strips to the same one ignoring case. */
  predicate FirstOccurrence(names: seq<string>, i: int)
    requires 0 <= i < |names|
  {
    Strip(names[i]) != "" && !SomeStripsTo(names[..i], Strip(names[i]))
  }

  /** A reference for the clean-up: the stripped first occurrences, in input order. */
  function FirstOccurrences(names: seq<string>): seq<string>
    decreases |names|
  {
    if names == [] then []
    else FirstOccurrences(names[..|names| - 1]) + LastKept(names)
  }

  /** What the last name contributes to the reference: itself stripped if it is a first occurrence. */
  function LastKept(names: seq<string>): seq<string>
    requires names != []
  {
    if FirstOccurrence(names, |names| - 1) then [Strip(names[|names| - 1])] else []
  }

  lemma ContainsFoldAppend(a: seq<string>, b: seq<string>, n: string)
    ensures ContainsFold(a + b, n) <==> ContainsFold(a, n) || ContainsFold(b, n)
  {
    if ContainsFold(a + b, n) {
      var i :| 0 <= i < |a + b| && Lower((a + b)[i]) == Lower(n);
      if i >= |a| {
        assert b[i - |a|] == (a + b)[i];
      }
    }
    if ContainsFold(a, n) {
      var i :| 0 <= i < |a| && Lower(a[i]) == Lower(n);
      assert (a + b)[i] == a[i];
    }
    if ContainsFold(b, n) {
      var i :| 0 <= i < |b| && Lower(b[i]) == Lower(n);
      assert (a + b)[|a| + i] == b[i];
    }
  }

  /** Some name of the input strips to a non-empty name equal to `n` ignoring case. */
  predicate SomeStripsTo(names: seq<string>, n: string) {
    exists j :: 0 <= j < |names| && Strip(names[j]) != "" && Lower(Strip(names[j])) == Lower(n)
  }

  lemma SomeStripsToSnoc(init: seq<string>, last: string, n: string)
    ensures SomeStripsTo(init + [last], n) <==> SomeStripsTo(init, n) || (Strip(last) != "" && Lower(Strip(last)) == Lower(n))
  {
    var names := init + [last];
    if SomeStripsTo(names, n) {
      var j :| 0 <= j < |names| && Strip(names[j]) != "" && Lower(Strip(names[j])) == Lower(n);
      if j < |init| {
        assert init[j] == names[j];
      }
    }
    if SomeStripsTo(init, n) {
      var j :| 0 <= j < |init| && Strip(init[j]) != "" && Lower(Strip(init[j])) == Lower(n);
      assert names[j] == init[j];
    }
    if Strip(last) != "" && Lower(Strip(last)) == Lower(n) {
      assert names[|init|] == last;
    }
  }

  /** The last name's contribution matches `n` exactly when the last name is kept and matches `n`. */
  lemma LastKeptFold(names: seq<string>, n: string)
    requires names != []
    ensures ContainsFold(LastKept(names), n) <==>
      FirstOccurrence(names, |names| - 1) && Lower(Strip(names[|names| - 1])) == Lower(n)
  {
    if ContainsFold(LastKept(names), n) {
      assert Lower(LastKept(names)[0]) == Lower(n);
    }
  }

  /** A last name that is dropped although it matches `n` was dropped for an earlier name matching `n`. */
  lemma DroppedLastFold(names: seq<string>, n: string)
    requires names != []
    requires !FirstOccurrence(names, |names| - 1)
    requires Strip(names[|names| - 1]) != "" && Lower(Strip(names[|names| - 1])) == Lower(n)
    ensures SomeStripsTo(names[..|names| - 1], n)
  {
    var init := names[..|names| - 1];
    var last := names[|names| - 1];
    var j :| 0 <= j < |init| && Strip(init[j]) != "" && Lower(Strip(init[j])) == Lower(Strip(last));
    assert Lower(Strip(init[j])) == Lower(n);
  }

  /** The reference holds a name ignoring case exactly when some input strips to it. */
  lemma {:induction false} FirstOccurrencesFold(names: seq<string>, n: string)
    ensures ContainsFold(FirstOccurrences(names), n) <==> SomeStripsTo(names, n)
    decreases |names|
  {
    if names != [] {
      var init := names[..|names| - 1];
      var last := names[|names| - 1];
      assert names == init + [last];
      FirstOccurrencesFold(init, n);
      ContainsFoldAppend(FirstOccurrences(init), LastKept(names), n);
      SomeStripsToSnoc(init, last, n);
      LastKeptFold(names, n);
      if !FirstOccurrence(names, |names| - 1) && Strip(last) != "" && Lower(Strip(last)) == Lower(n) {
        DroppedLastFold(names, n);
      }
    }
  }

  /** The clean-up keeps exactly the first occurrences, stripped, in input order. */
  lemma {:induction false} CleanedIsFirstOccurrences(names: seq<string>)
    ensures Cleaned(names) == FirstOccurrences(names)
    decreases |names|
  {
    if names != [] {
      var init := names[..|names| - 1];
      var last := names[|names| - 1];
      CleanedIsFirstOccurrences(init);
      var n := Strip(last);
      if n != "" {
        assert |Strip(last)| <= |last|;
        FirstOccurrencesFold(init, n);
      }
    }
  }

  /** The result is stripped, has no empty names and no two names equal ignoring case. */
  lemma {:induction false} CleanedWellFormed(names: seq<string>)
    ensures WellFormed(Cleaned(names))
    decreases |names|
  {
    if names != [] {
      var init := names[..|names| - 1];
      var last := names[|names| - 1];
      CleanedWellFormed(init);
      var prev := Cleaned(init);
      var n := Strip(last);
      if last != "" && n != "" && !ContainsFold(prev, n) {
        StripIdempotent(last);
        var r := prev + [n];
        forall i, j | 0 <= i < j < |r| ensures Lower(r[i]) != Lower(r[j]) {
          if j == |prev| {
            assert r[i] == prev[i];
          } else {
            assert r[i] == prev[i] && r[j] == prev[j];
          }
        }
      }
    }
  }

  lemma WellFormedPrefix(names: seq<string>)
    requires WellFormed(names) && names != []
    ensures WellFormed(names[..|names| - 1])
  {
    var init := names[..|names| - 1];
    forall i | 0 <= i < |init| ensures Strip(init[i]) == init[i] && init[i] != "" {
      assert init[i] == names[i];
    }
    forall i, j | 0 <= i < j < |init| ensures Lower(init[i]) != Lower(init[j]) {
      assert init[i] == names[i] && init[j] == names[j];
    }
  }

  /** A clean name that matches nothing kept so far is appended. */
  lemma CleanStepAppends(cleaned: seq<string>, name: string)
    requires name != "" && Strip(name) == name
    requires forall i :: 0 <= i < |cleaned| ==> Lower(cleaned[i]) != Lower(name)
    ensures CleanStep(cleaned, name) == cleaned + [name]
  {
  }

  /** In a clean list, the last name matches no earlier one. */
  lemma LastIsFresh(names: seq<string>)
    requires WellFormed(names) && names != []
    ensures var init := names[..|names| - 1];
      forall i :: 0 <= i < |init| ==> Lower(init[i]) != Lower(names[|names| - 1])
  {
    var init := names[..|names| - 1];
    forall i | 0 <= i < |init| ensures Lower(init[i]) != Lower(names[|names| - 1]) {
      assert init[i] == names[i];
    }
  }

  /** A list that is already clean comes back unchanged. */
  lemma {:induction false} CleanedOfWellFormed(names: seq<string>)
    requires WellFormed(names)
    ensures Cleaned(names) == names
    decreases |names|
  {
    if names != [] {
      var init := names[..|names| - 1];
      var last := names[|names| - 1];
      WellFormedPrefix(names);
      CleanedOfWellFormed(init);
      LastIsFresh(names);
      CleanStepAppends(init, last);
      assert names == init + [last];
    }
  }

  /** Applying the clean-up to its own output gives the same list. */
  lemma CleanedIdempotent(names: seq<string>)
    ensures Cleaned(Cleaned(names)) == Cleaned(names)
  {
    CleanedWellFormed(names);
    CleanedOfWellFormed(Cleaned(names));
  }

  /** The dedupe scan `any(...)` over the list built so far. */
  method HasFoldDuplicate(cleaned: seq<string>, n: string) returns (found: bool)
    ensures found == ContainsFold(cleaned, n)
  {
    found := false;
    var j := 0;
    while j < |cleaned| && !found
      invariant 0 <= j <= |cleaned|
      invariant found ==> ContainsFold(cleaned, n)
      invariant !found ==> forall m :: 0 <= m < j ==> Lower(cleaned[m]) != Lower(n)
    {
      if Lower(cleaned[j]) == Lower(n) {
        found := true;
      }
      j := j + 1;
    }
  }

  /** The `for name in professions` loop building `cleaned`. */
  method CleanProfessions(names: seq<string>) returns (cleaned: seq<string>)
    ensures cleaned == Cleaned(names)
  {
    cleaned := [];
    var i := 0;
    while i < |names|
      invariant 0 <= i <= |names|
      invariant cleaned == Cleaned(names[..i])
    {
      var name := names[i];
      assert names[..i + 1][..i] == names[..i];
      if name != "" {
        var n := Strip(name);
        if n != "" {
          var duplicate := HasFoldDuplicate(cleaned, n);
          if !duplicate {
            cleaned := cleaned + [n];
          }
        }
      }
      i := i + 1;
    }
    assert names[..|names|] == names;
  }

  /** The rows inserted for the cleaned names, with consecutive ids. */
  function ProfessionRows(providerId: int, firstId: int, names: seq<string>): (r: seq<ProviderProfession>)
    ensures |r| == |names|
    ensures forall i :: 0 <= i < |r| ==> r[i].id == firstId + i && r[i].providerId == providerId && r[i].name == names[i]
  {
    seq(|names|, i requires 0 <= i < |names| => ProviderProfession(firstId + i, providerId, names[i]))
  }

  /** One more name adds one more row, with the next id. */
  lemma ProfessionRowsSnoc(providerId: int, firstId: int, names: seq<string>, i: nat)
    requires i < |names|
    ensures ProfessionRows(providerId, firstId, names[..i + 1])
      == ProfessionRows(providerId, firstId, names[..i]) + [ProviderProfession(firstId + i, providerId, names[i])]
  {
    var a := ProfessionRows(providerId, firstId, names[..i + 1]);
    var b := ProfessionRows(providerId, firstId, names[..i]) + [ProviderProfession(firstId + i, providerId, names[i])];
    assert |a| == |b|;
    forall k | 0 <= k < |a| ensures a[k] == b[k] {
      assert names[..i + 1][k] == names[k];
      if k < i {
        assert names[..i][k] == names[k];
      }
    }
  }

  /** The rows of one provider, in table order. */
  function ProfessionsOf(table: seq<ProviderProfession>, providerId: int): seq<ProviderProfession> {
    Filter(table, (p: ProviderProfession) => p.providerId == providerId)
  }

  function IdKey(p: ProviderProfession): int {
    p.id
  }

  /** `names` are the names of `rows`, one for one and in the same order. */
  predicate NamesOfRows(names: seq<string>, rows: seq<ProviderProfession>) {
    |names| == |rows| && forall i :: 0 <= i < |rows| ==> names[i] == rows[i].name
  }

  /**
   * `get_professions_for_provider`: the names of the provider's rows, every one of them
   * once, ordered by id.
   */
  function NamesOf(table: seq<ProviderProfession>, providerId: int): (r: seq<string>)
    ensures |r| == |ProfessionsOf(table, providerId)|
    ensures exists rows :: SortedBy(rows, IdKey) && multiset(rows) == multiset(ProfessionsOf(table, providerId)) && NamesOfRows(r, rows)
  {
    var rows := SortBy(ProfessionsOf(table, providerId), IdKey);
    var r := seq(|rows|, i requires 0 <= i < |rows| => rows[i].name);
    assert NamesOfRows(r, rows);
    r
  }

  /** The rows of every other provider, in table order: what the delete leaves. */
  function OthersOf(table: seq<ProviderProfession>, providerId: int): (r: seq<ProviderProfession>)
    ensures forall i :: 0 <= i < |r| ==> r[i] in table && r[i].providerId != providerId
    ensures forall i :: 0 <= i < |table| && table[i].providerId != providerId ==> table[i] in r
  {
    Filter(table, (p: ProviderProfession) => p.providerId != providerId)
  }

  /** The table after the provider's rows are deleted and the cleaned names inserted. */
  function Replaced(table: seq<ProviderProfession>, providerId: int, firstId: int, names: seq<string>): seq<ProviderProfession> {
    OthersOf(table, providerId) + ProfessionRows(providerId, firstId, Cleaned(names))
  }

  /** Reading the provider's list back after the replacement gives exactly the cleaned names. */
  lemma ReplacedReadsBack(table: seq<ProviderProfession>, providerId: int, firstId: int, names: seq<string>)
    ensures NamesOf(Replaced(table, providerId, firstId, names), providerId) == Cleaned(names)
  {
    var kept := OthersOf(table, providerId);
    var added := ProfessionRows(providerId, firstId, Cleaned(names));
    var mine := (p: ProviderProfession) => p.providerId == providerId;
    FilterAppend(kept, added, mine);
    FilterNone(kept, mine);
    FilterAll(added, mine);
    assert ProfessionsOf(Replaced(table, providerId, firstId, names), providerId) == added;
    assert SortedBy(added, IdKey);
    SortBySorted(added, IdKey);
  }
}
