/**
 * The admin screen's waitlist table: a fixed list of sign-ups, a search box
 * whose text filters the list by name or e-mail, ignoring case, and the
 * "Showing X of Y entries" line under the table.
 */
module Admin {
  import opened Text

  datatype Status = New | Contacted

  /** One waitlist sign-up as the table shows it. */
  datatype Entry = Entry(id: int, name: string, email: string, date: string, status: Status)

  /** The mock sign-ups the screen renders. */
  const WaitlistEntries: seq<Entry> := [
    Entry(1, "John Smith", "john@example.com", "2023-05-21", New),
    Entry(2, "Sarah Johnson", "sarah@example.com", "2023-05-21", New),
    Entry(3, "Michael Brown", "michael@example.com", "2023-05-20", Contacted),
    Entry(4, "Emily Davis", "emily@example.com", "2023-05-20", New),
    Entry(5, "David Wilson", "david@example.com", "2023-05-19", Contacted),
    Entry(6, "Jessica Taylor", "jessica@example.com", "2023-05-19", New),
    Entry(7, "Andrew Miller", "andrew@example.com", "2023-05-18", New),
    Entry(8, "Olivia Moore", "olivia@example.com", "2023-05-18", Contacted),
    Entry(9, "James Anderson", "james@example.com", "2023-05-17", New),
    Entry(10, "Sophia Thomas", "sophia@example.com", "2023-05-17", New)
  ]

  /** The filter's test: the lower-cased name or e-mail includes the lower-cased term. */
  predicate Matches(e: Entry, searchTerm: string)
    ensures Lower(searchTerm) == [] ==> Matches(e, searchTerm)
  {
    Contains(Lower(e.name), Lower(searchTerm)) || Contains(Lower(e.email), Lower(searchTerm))
  }

  /** `waitlistEntries.filter(...)`: the entries that match, in their original order. */
  function Filter(entries: seq<Entry>, searchTerm: string): (r: seq<Entry>)
    ensures |r| <= |entries|
    ensures forall e :: e in r <==> e in entries && Matches(e, searchTerm)
    decreases |entries|
  {
    if entries == [] then []
    else
      var rest := Filter(entries[1..], searchTerm);
      if Matches(entries[0], searchTerm) then [entries[0]] + rest else rest
  }

  /** The two numbers of "Showing X of Y entries". */
  datatype Showing = Showing(shown: nat, total: nat)

  function ShowingCount(entries: seq<Entry>, searchTerm: string): (r: Showing)
    ensures r.shown <= r.total
    ensures r.total == |entries|
    ensures r.shown == |Filter(entries, searchTerm)|
  {
    Showing(|Filter(entries, searchTerm)|, |entries|)
  }

  // ---------------------------------------------------------------------------
  // Properties of the filter
  // ---------------------------------------------------------------------------

  /**
   * `idx` is a strictly increasing list of positions of `s`, and `r` is `s`
   * read at those positions: `r` is an order-preserving subsequence of `s`.
   */
  ghost predicate SelectsAt(s: seq<Entry>, r: seq<Entry>, idx: seq<int>)
  {
    && |idx| == |r|
    && (forall k :: 0 <= k < |idx| ==> 0 <= idx[k] < |s| && r[k] == s[idx[k]])
    && (forall k, l :: 0 <= k < l < |idx| ==> idx[k] < idx[l])
  }

  /** Each position moved one place to the right. */
  function Shift(idx: seq<int>): (r: seq<int>)
    ensures |r| == |idx|
  {
    seq(|idx|, k requires 0 <= k < |idx| => idx[k] + 1)
  }

  lemma ShiftMembers(idx: seq<int>)
    requires forall k :: 0 <= k < |idx| ==> 0 <= idx[k]
    ensures 0 !in Shift(idx)
    ensures forall i :: i in Shift(idx) <==> i - 1 in idx
  {
    forall i
      ensures i in Shift(idx) <==> i - 1 in idx
    {
      if i in Shift(idx) {
        var k :| 0 <= k < |idx| && Shift(idx)[k] == i;
        assert idx[k] == i - 1;
      }
      if i - 1 in idx {
        var k :| 0 <= k < |idx| && idx[k] == i - 1;
        assert Shift(idx)[k] == i;
      }
    }
  }

  /** A selection from the tail of `s` is a selection from `s`, shifted... */
  lemma SelectsFromTail(s: seq<Entry>, r: seq<Entry>, idx: seq<int>)
    requires s != [] && SelectsAt(s[1..], r, idx)
    ensures SelectsAt(s, r, Shift(idx))
  {
  }

  /** ... and prefixing the head of `s` to it prefixes position 0. */
  lemma SelectsWithHead(s: seq<Entry>, r: seq<Entry>, idx: seq<int>)
    requires s != [] && SelectsAt(s, r, idx)
    requires forall k :: 0 <= k < |idx| ==> 1 <= idx[k]
    ensures SelectsAt(s, [s[0]] + r, [0] + idx)
  {
  }

  /**
   * The result is the subsequence of `entries` at exactly the positions whose
   * entry matches: kept entries match, dropped entries do not, order is kept.
   */
  lemma {:induction false} FilterSelectsMatching(entries: seq<Entry>, searchTerm: string)
    returns (idx: seq<int>)
    ensures SelectsAt(entries, Filter(entries, searchTerm), idx)
    ensures forall i :: 0 <= i < |entries| ==> (i in idx <==> Matches(entries[i], searchTerm))
    decreases |entries|
  {
    if entries == [] {
      idx := [];
    } else {
      var rest := Filter(entries[1..], searchTerm);
      var tail := FilterSelectsMatching(entries[1..], searchTerm);
      SelectsFromTail(entries, rest, tail);
      ShiftMembers(tail);
      if Matches(entries[0], searchTerm) {
        SelectsWithHead(entries, rest, Shift(tail));
        idx := [0] + Shift(tail);
      } else {
        idx := Shift(tail);
      }
      forall i | 1 <= i < |entries|
        ensures i in idx <==> Matches(entries[i], searchTerm)
      {
        assert entries[1..][i - 1] == entries[i];
      }
    }
  }

  /** An entry list all of whose entries match is kept whole. */
  lemma {:induction false} FilterKeepsAllMatching(entries: seq<Entry>, searchTerm: string)
    requires forall i :: 0 <= i < |entries| ==> Matches(entries[i], searchTerm)
    ensures Filter(entries, searchTerm) == entries
    decreases |entries|
  {
    if entries != [] {
      assert forall i :: 0 <= i < |entries| - 1 ==> entries[1..][i] == entries[i + 1];
      FilterKeepsAllMatching(entries[1..], searchTerm);
      assert entries == [entries[0]] + entries[1..];
    }
  }

  /** An empty search box shows every entry: every string includes "". */
  lemma FilterEmptyTermKeepsAll(entries: seq<Entry>)
    ensures Filter(entries, "") == entries
  {
    assert Lower("") == "";
    FilterKeepsAllMatching(entries, "");
  }

  /** Two search terms that lower-case alike give the same table. */
  lemma {:induction false} FilterCaseInsensitive(entries: seq<Entry>, term1: string, term2: string)
    requires Lower(term1) == Lower(term2)
    ensures Filter(entries, term1) == Filter(entries, term2)
    decreases |entries|
  {
    if entries != [] {
      FilterCaseInsensitive(entries[1..], term1, term2);
    }
  }

  /** In particular a term filters exactly as its lower-case form does. */
  lemma FilterSameAsLowerTerm(entries: seq<Entry>, searchTerm: string)
    ensures Filter(entries, searchTerm) == Filter(entries, Lower(searchTerm))
  {
    LowerIdempotent(searchTerm);
    FilterCaseInsensitive(entries, searchTerm, Lower(searchTerm));
  }

  /** Filtering the table again with the same term changes nothing. */
  lemma {:induction false} FilterIdempotent(entries: seq<Entry>, searchTerm: string)
    ensures Filter(Filter(entries, searchTerm), searchTerm) == Filter(entries, searchTerm)
    decreases |entries|
  {
    if entries != [] {
      FilterIdempotent(entries[1..], searchTerm);
      var rest := Filter(entries[1..], searchTerm);
      if Matches(entries[0], searchTerm) {
        assert ([entries[0]] + rest)[1..] == rest;
      }
    }
  }

  /** The (name, e-mail) pairs of a list of entries, in order. */
  function Contacts(entries: seq<Entry>): seq<(string, string)>
  {
    seq(|entries|, i requires 0 <= i < |entries| => (entries[i].name, entries[i].email))
  }

  /**
   * `id`, `date` and `status` play no part in matching: lists that agree on
   * names and e-mails, position by position, filter to lists that agree too.
   */
  lemma {:induction false} FilterIgnoresOtherFields(entries1: seq<Entry>, entries2: seq<Entry>, searchTerm: string)
    requires Contacts(entries1) == Contacts(entries2)
    ensures Contacts(Filter(entries1, searchTerm)) == Contacts(Filter(entries2, searchTerm))
    decreases |entries1|
  {
    assert |entries1| == |Contacts(entries1)| == |entries2|;
    if entries1 != [] {
      assert Contacts(entries1)[0] == Contacts(entries2)[0];
      assert Contacts(entries1[1..]) == Contacts(entries1)[1..];
      assert Contacts(entries2[1..]) == Contacts(entries2)[1..];
      FilterIgnoresOtherFields(entries1[1..], entries2[1..], searchTerm);
      var rest1 := Filter(entries1[1..], searchTerm);
      var rest2 := Filter(entries2[1..], searchTerm);
      assert Contacts([entries1[0]] + rest1) == [(entries1[0].name, entries1[0].email)] + Contacts(rest1);
      assert Contacts([entries2[0]] + rest2) == [(entries2[0].name, entries2[0].email)] + Contacts(rest2);
    }
  }

  // ---------------------------------------------------------------------------
  // The mock data
  // ---------------------------------------------------------------------------

  /** No 'j', in either case, at position `k` or later. */
  predicate NoJFrom(s: string, k: nat)
  {
    forall i :: k <= i < |s| ==> s[i] != 'j' && s[i] != 'J'
  }

  /** The domain every mock address uses is already lower-case. */
  lemma ExampleComIsLowerCase()
    ensures Lower("example.com") == "example.com"
  {
    var d := "example.com";
    assert forall i :: 0 <= i < |d| ==> !IsUpper(d[i]);
    LowerOfLowerCase(d);
  }

  /** An address `local@d`, with `d` lower-case, matches every term that lower-cases to `d`. */
  lemma AddressInDomain(e: Entry, local: string, d: string, term: string)
    requires Lower(d) == d && Lower(term) == d
    requires e.email == local + "@" + d
    ensures Matches(e, term)
  {
    LowerAppend(local + "@", d);
    ContainsInfix(Lower(local + "@"), d, "");
    assert Lower(local + "@") + d + [] == Lower(e.email);
  }

  /** A name whose lower-case form has `q` inside matches every term that lower-cases to `q`. */
  lemma NameHolds(e: Entry, before: string, q: string, after: string, term: string)
    requires Lower(term) == q
    requires Lower(e.name) == before + q + after
    ensures Matches(e, term)
  {
    ContainsInfix(before, q, after);
  }

  /** A string with no 'j' in either case does not include "john" once lower-cased. */
  lemma NoJohnWithoutJ(s: string, term: string)
    requires Lower(term) == "john"
    requires NoJFrom(s, 0)
    ensures !Contains(Lower(s), Lower(term))
  {
    var low := Lower(s);
    forall i | 0 <= i && i + 4 <= |low|
      ensures !OccursAt(low, "john", i)
    {
      assert low[i..i + 4][0] == low[i] != 'j';
    }
    ContainsIffOccurs(low, "john");
  }

  /**
   * A string whose second character is no 'o' in either case and which has no
   * 'j' after its first character does not include "john" once lower-cased.
   */
  lemma NoJohnAfterHead(s: string, term: string)
    requires Lower(term) == "john"
    requires |s| >= 2 && s[1] != 'o' && s[1] != 'O' && NoJFrom(s, 1)
    ensures !Contains(Lower(s), Lower(term))
  {
    var low := Lower(s);
    forall i | 0 <= i && i + 4 <= |low|
      ensures !OccursAt(low, "john", i)
    {
      if i == 0 {
        assert low[i..i + 4][1] == low[1] != 'o';
      } else {
        assert low[i..i + 4][0] == low[i] != 'j';
      }
    }
    ContainsIffOccurs(low, "john");
  }

  /** An entry whose name and address have no 'j' does not match "john". */
  lemma NoJohnEntry(e: Entry, term: string)
    requires Lower(term) == "john"
    requires NoJFrom(e.name, 0) && NoJFrom(e.email, 0)
    ensures !Matches(e, term)
  {
    NoJohnWithoutJ(e.name, term);
    NoJohnWithoutJ(e.email, term);
  }

  /** An entry whose name and address start with a 'j' not followed by an 'o', and have no other 'j', does not match "john". */
  lemma NoJohnEntryAfterHead(e: Entry, term: string)
    requires Lower(term) == "john"
    requires |e.name| >= 2 && e.name[1] != 'o' && e.name[1] != 'O' && NoJFrom(e.name, 1)
    requires |e.email| >= 2 && e.email[1] != 'o' && e.email[1] != 'O' && NoJFrom(e.email, 1)
    ensures !Matches(e, term)
  {
    NoJohnAfterHead(e.name, term);
    NoJohnAfterHead(e.email, term);
  }

  /** A list none of whose entries match filters to nothing. */
  lemma {:induction false} FilterDropsAllUnmatched(entries: seq<Entry>, searchTerm: string)
    requires forall i :: 0 <= i < |entries| ==> !Matches(entries[i], searchTerm)
    ensures Filter(entries, searchTerm) == []
    decreases |entries|
  {
    if entries != [] {
      assert forall i :: 0 <= i < |entries| - 1 ==> entries[1..][i] == entries[i + 1];
      FilterDropsAllUnmatched(entries[1..], searchTerm);
    }
  }

  /** The address of the entry with id 1, John Smith, is in the example.com domain. */
  lemma DomainMatch1(term: string)
    requires Lower(term) == "example.com"
    ensures Matches(WaitlistEntries[0], term)
  {
    ExampleComIsLowerCase();
    AddressInDomain(WaitlistEntries[0], "john", "example.com", term);
  }

  /** The address of the entry with id 2, Sarah Johnson, is in the example.com domain. */
  lemma DomainMatch2(term: string)
    requires Lower(term) == "example.com"
    ensures Matches(WaitlistEntries[1], term)
  {
    ExampleComIsLowerCase();
    AddressInDomain(WaitlistEntries[1], "sarah", "example.com", term);
  }

  /** The address of the entry with id 3, Michael Brown, is in the example.com domain. */
  lemma DomainMatch3(term: string)
    requires Lower(term) == "example.com"
    ensures Matches(WaitlistEntries[2], term)
  {
    ExampleComIsLowerCase();
    AddressInDomain(WaitlistEntries[2], "michael", "example.com", term);
  }

  /** The address of the entry with id 4, Emily Davis, is in the example.com domain. */
  lemma DomainMatch4(term: string)
    requires Lower(term) == "example.com"
    ensures Matches(WaitlistEntries[3], term)
  {
    ExampleComIsLowerCase();
    AddressInDomain(WaitlistEntries[3], "emily", "example.com", term);
  }

  /** The address of the entry with id 5, David Wilson, is in the example.com domain. */
  lemma DomainMatch5(term: string)
    requires Lower(term) == "example.com"
    ensures Matches(WaitlistEntries[4], term)
  {
    ExampleComIsLowerCase();
    AddressInDomain(WaitlistEntries[4], "david", "example.com", term);
  }

  /** The address of the entry with id 6, Jessica Taylor, is in the example.com domain. */
  lemma DomainMatch6(term: string)
    requires Lower(term) == "example.com"
    ensures Matches(WaitlistEntries[5], term)
  {
    ExampleComIsLowerCase();
    AddressInDomain(WaitlistEntries[5], "jessica", "example.com", term);
  }

  /** The address of the entry with id 7, Andrew Miller, is in the example.com domain. */
  lemma DomainMatch7(term: string)
    requires Lower(term) == "example.com"
    ensures Matches(WaitlistEntries[6], term)
  {
    ExampleComIsLowerCase();
    AddressInDomain(WaitlistEntries[6], "andrew", "example.com", term);
  }

  /** The address of the entry with id 8, Olivia Moore, is in the example.com domain. */
  lemma DomainMatch8(term: string)
    requires Lower(term) == "example.com"
    ensures Matches(WaitlistEntries[7], term)
  {
    ExampleComIsLowerCase();
    AddressInDomain(WaitlistEntries[7], "olivia", "example.com", term);
  }

  /** The address of the entry with id 9, James Anderson, is in the example.com domain. */
  lemma DomainMatch9(term: string)
    requires Lower(term) == "example.com"
    ensures Matches(WaitlistEntries[8], term)
  {
    ExampleComIsLowerCase();
    AddressInDomain(WaitlistEntries[8], "james", "example.com", term);
  }

  /** The address of the entry with id 10, Sophia Thomas, is in the example.com domain. */
  lemma DomainMatch10(term: string)
    requires Lower(term) == "example.com"
    ensures Matches(WaitlistEntries[9], term)
  {
    ExampleComIsLowerCase();
    AddressInDomain(WaitlistEntries[9], "sophia", "example.com", term);
  }

  /** The entry with id 1, John Smith, matches "john" by its name. */
  lemma JohnSearch1(term: string)
    requires Lower(term) == "john"
    ensures Matches(WaitlistEntries[0], term)
  {
    NameHolds(WaitlistEntries[0], "", "john", " smith", term);
  }

  /** The entry with id 2, Sarah Johnson, matches "john" by its surname. */
  lemma JohnSearch2(term: string)
    requires Lower(term) == "john"
    ensures Matches(WaitlistEntries[1], term)
  {
    NameHolds(WaitlistEntries[1], "sarah ", "john", "son", term);
  }

  /** The entry with id 3, Michael Brown, does not match "john". */
  lemma JohnSearch3(term: string)
    requires Lower(term) == "john"
    ensures !Matches(WaitlistEntries[2], term)
  {
    NoJohnEntry(WaitlistEntries[2], term);
  }

  /** The entry with id 4, Emily Davis, does not match "john". */
  lemma JohnSearch4(term: string)
    requires Lower(term) == "john"
    ensures !Matches(WaitlistEntries[3], term)
  {
    NoJohnEntry(WaitlistEntries[3], term);
  }

  /** The entry with id 5, David Wilson, does not match "john". */
  lemma JohnSearch5(term: string)
    requires Lower(term) == "john"
    ensures !Matches(WaitlistEntries[4], term)
  {
    NoJohnEntry(WaitlistEntries[4], term);
  }

  /** The entry with id 6, Jessica Taylor, does not match "john". */
  lemma JohnSearch6(term: string)
    requires Lower(term) == "john"
    ensures !Matches(WaitlistEntries[5], term)
  {
    NoJohnEntryAfterHead(WaitlistEntries[5], term);
  }

  /** The entry with id 7, Andrew Miller, does not match "john". */
  lemma JohnSearch7(term: string)
    requires Lower(term) == "john"
    ensures !Matches(WaitlistEntries[6], term)
  {
    NoJohnEntry(WaitlistEntries[6], term);
  }

  /** The entry with id 8, Olivia Moore, does not match "john". */
  lemma JohnSearch8(term: string)
    requires Lower(term) == "john"
    ensures !Matches(WaitlistEntries[7], term)
  {
    NoJohnEntry(WaitlistEntries[7], term);
  }

  /** The entry with id 9, James Anderson, does not match "john". */
  lemma JohnSearch9(term: string)
    requires Lower(term) == "john"
    ensures !Matches(WaitlistEntries[8], term)
  {
    NoJohnEntryAfterHead(WaitlistEntries[8], term);
  }

  /** The entry with id 10, Sophia Thomas, does not match "john". */
  lemma JohnSearch10(term: string)
    requires Lower(term) == "john"
    ensures !Matches(WaitlistEntries[9], term)
  {
    NoJohnEntry(WaitlistEntries[9], term);
  }

  /** Ten entries that all match are all kept. */
  lemma FilterKeepsTen(es: seq<Entry>, term: string)
    requires |es| == 10
    requires Matches(es[0], term) && Matches(es[1], term) && Matches(es[2], term) && Matches(es[3], term)
    requires Matches(es[4], term) && Matches(es[5], term) && Matches(es[6], term) && Matches(es[7], term)
    requires Matches(es[8], term) && Matches(es[9], term)
    ensures Filter(es, term) == es
  {
    FilterKeepsAllMatching(es, term);
  }

  /** Of ten entries of which only the first two match, only those two are kept. */
  lemma FilterKeepsFirstTwoOfTen(es: seq<Entry>, term: string)
    requires |es| == 10
    requires Matches(es[0], term) && Matches(es[1], term)
    requires !Matches(es[2], term) && !Matches(es[3], term) && !Matches(es[4], term) && !Matches(es[5], term)
    requires !Matches(es[6], term) && !Matches(es[7], term) && !Matches(es[8], term) && !Matches(es[9], term)
    ensures Filter(es, term) == es[..2]
  {
    var late := es[2..];
    forall i | 0 <= i < |late|
      ensures !Matches(late[i], term)
    {
      assert late[i] == es[i + 2];
    }
    FilterDropsAllUnmatched(late, term);
    assert es[1..][1..] == late;
    assert Filter(es[1..], term) == [es[1]] + Filter(late, term);
  }

  /** Searching anything that lower-cases to "example.com" shows all ten mock entries. */
  lemma MockExampleComShowsAll(term: string)
    requires Lower(term) == "example.com"
    ensures Filter(WaitlistEntries, term) == WaitlistEntries
    ensures ShowingCount(WaitlistEntries, term) == Showing(10, 10)
  {
    DomainMatch1(term);
    DomainMatch2(term);
    DomainMatch3(term);
    DomainMatch4(term);
    DomainMatch5(term);
    DomainMatch6(term);
    DomainMatch7(term);
    DomainMatch8(term);
    DomainMatch9(term);
    DomainMatch10(term);
    FilterKeepsTen(WaitlistEntries, term);
  }

  /**
   * Searching anything that lower-cases to "john" shows exactly the entries
   * with ids 1 and 2: "Sarah Johnson" includes "john" once lower-cased.
   */
  lemma MockJohnShowsTwo(term: string)
    requires Lower(term) == "john"
    ensures Filter(WaitlistEntries, term) == WaitlistEntries[..2]
    ensures Filter(WaitlistEntries, term)[0].id == 1 && Filter(WaitlistEntries, term)[1].id == 2
    ensures ShowingCount(WaitlistEntries, term) == Showing(2, 10)
  {
    JohnSearch1(term);
    JohnSearch2(term);
    JohnSearch3(term);
    JohnSearch4(term);
    JohnSearch5(term);
    JohnSearch6(term);
    JohnSearch7(term);
    JohnSearch8(term);
    JohnSearch9(term);
    JohnSearch10(term);
    FilterKeepsFirstTwoOfTen(WaitlistEntries, term);
  }
}
