/** The preferences page: a case-insensitive search over the topic
    catalogue, and a toggle that adds a topic id to the selection or
    removes it. */
module Preferences {
  import opened Text
  import opened Seqs

  datatype Topic = Topic(id: int, name: string)

  /** `pref.name.toLowerCase().includes(searchQuery.toLowerCase())` */
  predicate MatchesQuery(topic: Topic, query: string)
  {
    Includes(LowerStr(topic.name), LowerStr(query))
  }

  /** `filteredPreferences`: the topics matching the query, in catalogue order. */
  function FilteredPreferences(topics: seq<Topic>, query: string): (r: seq<Topic>)
    ensures |r| <= |topics|
    ensures forall t :: t in r <==> t in topics && MatchesQuery(t, query)
  {
    if topics == [] then []
    else if MatchesQuery(topics[0], query) then [topics[0]] + FilteredPreferences(topics[1..], query)
    else FilteredPreferences(topics[1..], query)
  }

  /** The search keeps catalogue order and multiplicity: searching two
      catalogues one after the other gives the two results one after the other. */
  lemma {:induction false} FilteredPreferencesConcat(a: seq<Topic>, b: seq<Topic>, query: string)
    ensures FilteredPreferences(a + b, query) == FilteredPreferences(a, query) + FilteredPreferences(b, query)
  {
    if a != [] {
      assert (a + b)[0] == a[0] && (a + b)[1..] == a[1..] + b;
      FilteredPreferencesConcat(a[1..], b, query);
    } else {
      assert a + b == b;
    }
  }

  /** An empty search shows the whole catalogue. */
  lemma {:induction false} EmptyQueryKeepsAll(topics: seq<Topic>)
    ensures FilteredPreferences(topics, "") == topics
  {
    if topics != [] {
      EmptyIsIncluded(LowerStr(topics[0].name));
      EmptyQueryKeepsAll(topics[1..]);
    }
  }

  /** The case of the query does not matter: searching for its lower-cased
      form shows the same topics in the same order. */
  lemma {:induction false} QueryCaseIgnored(topics: seq<Topic>, query: string)
    ensures FilteredPreferences(topics, LowerStr(query)) == FilteredPreferences(topics, query)
  {
    LowerStrIdempotent(query);
    if topics != [] {
      QueryCaseIgnored(topics[1..], query);
    }
  }

  /** Searching within the results of a search changes nothing: the filter
      is idempotent. */
  lemma {:induction false} FilterIdempotent(topics: seq<Topic>, query: string)
    ensures FilteredPreferences(FilteredPreferences(topics, query), query) == FilteredPreferences(topics, query)
  {
    if topics != [] {
      FilterIdempotent(topics[1..], query);
    }
  }

  // ---------------------------------------------------------------- toggle

  /** `prev.filter(prefId => prefId !== id)` */
  function RemoveAll(prev: seq<int>, id: int): (r: seq<int>)
    ensures |r| <= |prev|
    ensures forall x :: x in r <==> x in prev && x != id
  {
    if prev == [] then []
    else if prev[0] != id then [prev[0]] + RemoveAll(prev[1..], id)
    else RemoveAll(prev[1..], id)
  }

  /** `togglePreference(id)`: every occurrence removed when `id` is selected,
      appended at the end when it is not. */
  function Toggle(prev: seq<int>, id: int): (r: seq<int>)
    ensures id in r <==> id !in prev
    ensures forall x :: x != id ==> (x in r <==> x in prev)
    ensures id !in prev ==> r == prev + [id]
  {
    if id in prev then RemoveAll(prev, id) else prev + [id]
  }

  /** Removing an id that is not there changes nothing. */
  lemma {:induction false} RemoveAbsent(prev: seq<int>, id: int)
    requires id !in prev
    ensures RemoveAll(prev, id) == prev
  {
    if prev != [] {
      RemoveAbsent(prev[1..], id);
      assert prev == [prev[0]] + prev[1..];
    }
  }

  /** Removing keeps a duplicate-free selection duplicate-free. */
  lemma {:induction false} RemoveKeepsNoDuplicates(prev: seq<int>, id: int)
    requires NoDuplicates(prev)
    ensures NoDuplicates(RemoveAll(prev, id))
  {
    if prev != [] {
      var tail := prev[1..];
      assert NoDuplicates(tail) by {
        forall i, j | 0 <= i < j < |tail| ensures tail[i] != tail[j] {
          assert tail[i] == prev[i + 1] && tail[j] == prev[j + 1];
        }
      }
      RemoveKeepsNoDuplicates(tail, id);
      if prev[0] != id {
        var r := [prev[0]] + RemoveAll(tail, id);
        assert prev[0] !in tail by {
          forall k | 0 <= k < |tail| ensures tail[k] != prev[0] {
            assert tail[k] == prev[k + 1];
          }
        }
        forall i, j | 0 <= i < j < |r| ensures r[i] != r[j] {
          if i == 0 {
            assert r[j] in RemoveAll(tail, id);
          }
        }
      }
    }
  }

  /** A toggle keeps a duplicate-free selection duplicate-free. */
  lemma ToggleKeepsNoDuplicates(prev: seq<int>, id: int)
    requires NoDuplicates(prev)
    ensures NoDuplicates(Toggle(prev, id))
  {
    if id in prev {
      RemoveKeepsNoDuplicates(prev, id);
    } else {
      var r := prev + [id];
      forall i, j | 0 <= i < j < |r| ensures r[i] != r[j] {
        if j == |prev| {
          assert r[i] == prev[i];
        }
      }
    }
  }

  /** Toggling the same id twice selects the same set of ids as before; when
      the id was not selected the selection is restored exactly. */
  lemma ToggleTwice(prev: seq<int>, id: int)
    ensures (set x | x in Toggle(Toggle(prev, id), id)) == (set x | x in prev)
    ensures id !in prev ==> Toggle(Toggle(prev, id), id) == prev
  {
    if id !in prev {
      RemoveAbsent(prev, id);
      RemoveAppended(prev, id);
    }
  }

  /** Removing an id appended to a list without it gives the list back. */
  lemma {:induction false} RemoveAppended(prev: seq<int>, id: int)
    requires id !in prev
    ensures RemoveAll(prev + [id], id) == prev
  {
    if prev == [] {
      assert [id][1..] == [];
    } else {
      assert (prev + [id])[0] == prev[0] && (prev + [id])[1..] == prev[1..] + [id];
      RemoveAppended(prev[1..], id);
      assert prev == [prev[0]] + prev[1..];
    }
  }
}
