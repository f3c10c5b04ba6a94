/**
 * The dashboard's transaction list: the badge tone of one row and the
 * search / category filter over the whole list.
 */
module Dashboard {
  import opened Text
  import opened Lists

  /** One ledger entry. Only the sign of `amount` is used here, so the
      amount is an integer number of currency units. */
  datatype Transaction = Transaction(
    id: string,
    date: string,
    desc: string,
    amount: int,
    category: string,
    refCode: string)

  /** The three badge colours a transaction row can show. */
  datatype Tone = Green | Amber | Slate

  /** `getBadgeTone`: credits (including zero) are green, debits in the
      `Bill` category amber, every other debit slate. */
  function BadgeTone(t: Transaction): (tone: Tone)
    ensures tone == Green <==> t.amount >= 0
    ensures tone == Amber <==> t.amount < 0 && t.category == "Bill"
    ensures tone == Slate <==> t.amount < 0 && t.category != "Bill"
  {
    if t.amount >= 0 then Green
    else if t.category == "Bill" then Amber
    else Slate
  }

  /** The text searched by the query box: date, description, category and
      reference code, separated by single spaces. */
  function SearchText(t: Transaction): (r: string)
    ensures |r| == |t.date| + |t.desc| + |t.category| + |t.refCode| + 3
    ensures t.date <= r && r[|t.date|] == ' '
  {
    t.date + " " + t.desc + " " + t.category + " " + t.refCode
  }

  /** The search text holds the four fields in order, one space apart. */
  lemma SearchTextLayout(t: Transaction)
    ensures OccursAt(SearchText(t), t.date, 0)
    ensures OccursAt(SearchText(t), t.desc, |t.date| + 1)
    ensures OccursAt(SearchText(t), t.category, |t.date| + |t.desc| + 2)
    ensures OccursAt(SearchText(t), t.refCode, |t.date| + |t.desc| + |t.category| + 3)
    ensures SearchText(t)[|t.date|] == ' '
    ensures SearchText(t)[|t.date| + |t.desc| + 1] == ' '
    ensures SearchText(t)[|t.date| + |t.desc| + |t.category| + 2] == ' '
  {
  }

  /** The text predicate: an empty query accepts everything; otherwise the
      lower-cased search text must include the lower-cased query. */
  predicate MatchesQuery(t: Transaction, query: string): (b: bool)
    ensures query == "" ==> b
    ensures query != "" ==> (b <==> exists i :: OccursAt(ToLower(SearchText(t)), ToLower(query), i))
  {
    if query != "" then Includes(ToLower(SearchText(t)), ToLower(query)) else true
  }

  /** The category predicate: exactly `"all"` accepts everything; any other
      value must equal the category up to case. */
  predicate MatchesType(t: Transaction, typeFilter: string): (b: bool)
    ensures typeFilter == "all" ==> b
    ensures typeFilter != "all" ==> (b <==> EqualIgnoringCase(t.category, typeFilter))
  {
    if typeFilter == "all" then true
    else ToLower(t.category) == ToLower(typeFilter)
  }

  /** A row is shown when both predicates accept it. */
  predicate Matches(t: Transaction, query: string, typeFilter: string): (b: bool)
    ensures b <==>
      (query == "" || exists i :: OccursAt(ToLower(SearchText(t)), ToLower(query), i))
      && (typeFilter == "all" || EqualIgnoringCase(t.category, typeFilter))
  {
    MatchesQuery(t, query) && MatchesType(t, typeFilter)
  }

  /** `filteredTransactions`: the rows both predicates accept, in list
      order. */
  function FilteredTransactions(ts: seq<Transaction>, query: string, typeFilter: string): (r: seq<Transaction>)
    ensures IsSubsequence(r, ts)
    ensures forall i :: 0 <= i < |r| ==> r[i] in ts && MatchesQuery(r[i], query) && MatchesType(r[i], typeFilter)
    ensures forall i :: 0 <= i < |ts| && MatchesQuery(ts[i], query) && MatchesType(ts[i], typeFilter) ==> ts[i] in r
  {
    Filter(t => Matches(t, query, typeFilter), ts)
  }

  /** With a non-empty query, a row passes the text predicate exactly when
      the query, lower-cased, occurs in the lower-cased fields joined by
      spaces; with an empty query every row passes. */
  lemma QueryMatch(t: Transaction, query: string)
    ensures query == "" ==> MatchesQuery(t, query)
    ensures query != "" ==>
      (MatchesQuery(t, query) <==>
        exists i :: OccursAt(ToLower(t.date) + " " + ToLower(t.desc) + " " + ToLower(t.category) + " " + ToLower(t.refCode),
                             ToLower(query), i))
  {
    assert ToLower(" ") == " ";
    ToLowerAppend(t.date, " ");
    ToLowerAppend(t.date + " ", t.desc);
    ToLowerAppend(t.date + " " + t.desc, " ");
    ToLowerAppend(t.date + " " + t.desc + " ", t.category);
    ToLowerAppend(t.date + " " + t.desc + " " + t.category, " ");
    ToLowerAppend(t.date + " " + t.desc + " " + t.category + " ", t.refCode);
  }

  /** The sentinel is case-sensitive: `"ALL"` is an ordinary category value
      and accepts only categories spelled "all" in some case. */
  lemma UpperAllIsNotSentinel(t: Transaction)
    ensures MatchesType(t, "ALL") <==> ToLower(t.category) == "all"
  {
  }

  /** A row's membership counts: each accepted row keeps every occurrence,
      each rejected row loses all of them. */
  lemma FilteredCount(ts: seq<Transaction>, query: string, typeFilter: string, t: Transaction)
    ensures multiset(FilteredTransactions(ts, query, typeFilter))[t]
         == if Matches(t, query, typeFilter) then multiset(ts)[t] else 0
  {
    FilterMultiset(u => Matches(u, query, typeFilter), ts, t);
  }

  /** The initial state of the screen, an empty query and the `"all"`
      category, shows the whole list unchanged. */
  lemma NoCriteriaShowsAll(ts: seq<Transaction>)
    ensures FilteredTransactions(ts, "", "all") == ts
  {
    FilterAllAccepted(t => Matches(t, "", "all"), ts);
  }

  /** Filtering the shown rows again with the same query and category shows
      the same rows. */
  lemma FilteredIdempotent(ts: seq<Transaction>, query: string, typeFilter: string)
    ensures FilteredTransactions(FilteredTransactions(ts, query, typeFilter), query, typeFilter)
         == FilteredTransactions(ts, query, typeFilter)
  {
    FilterIdempotent(t => Matches(t, query, typeFilter), ts);
  }

  /** The filter of a list made of two parts is the filter of the first part
      followed by that of the second. */
  lemma FilteredAppend(a: seq<Transaction>, b: seq<Transaction>, query: string, typeFilter: string)
    ensures FilteredTransactions(a + b, query, typeFilter)
         == FilteredTransactions(a, query, typeFilter) + FilteredTransactions(b, query, typeFilter)
  {
    FilterAppend(t => Matches(t, query, typeFilter), a, b);
  }

  /** Queries and category values that differ only in the case of their
      letters show the same rows, provided both or neither is the sentinel. */
  lemma FilteredIgnoresCase(ts: seq<Transaction>, q1: string, q2: string, f1: string, f2: string)
    requires ToLower(q1) == ToLower(q2)
    requires ToLower(f1) == ToLower(f2)
    requires f1 == "all" <==> f2 == "all"
    ensures FilteredTransactions(ts, q1, f1) == FilteredTransactions(ts, q2, f2)
  {
    assert q1 == "" <==> q2 == "" by {
      assert |ToLower(q1)| == |q1| && |ToLower(q2)| == |q2|;
    }
    FilterAgree(t => Matches(t, q1, f1), t => Matches(t, q2, f2), ts);
  }

  const Coffee := Transaction("t1", "2024-01-02", "Coffee Shop", -450, "Dining", "A1")
  const Salary := Transaction("t2", "2024-01-01", "Salary Deposit", 250000, "Income", "B2")

  /** Filtering the two example rows keeps each one exactly when the row
      predicate accepts it, in list order. */
  lemma FilterPair(a: Transaction, b: Transaction, query: string, typeFilter: string)
    ensures FilteredTransactions([a, b], query, typeFilter)
         == (if Matches(a, query, typeFilter) then [a] else []) + (if Matches(b, query, typeFilter) then [b] else [])
  {
    var p := t => Matches(t, query, typeFilter);
    FilterCons(p, a, [b]);
    FilterCons(p, b, []);
    assert [a] + [b] == [a, b];
    assert [b] + [] == [b];
  }

  /** The "Coffee Shop" row contains the query `coffee`, lower-cased, at
      index 11 of its lower-cased search text. */
  lemma CoffeeMatchesCoffee()
    ensures Includes(ToLower(SearchText(Coffee)), ToLower("coffee"))
  {
    ToLowerOfLower("coffee");
    var t := SearchText(Coffee);
    var c := ToLower(t);
    assert |t| == 32;
    assert t[11] == 'C' && t[12] == 'o' && t[13] == 'f' && t[14] == 'f' && t[15] == 'e' && t[16] == 'e';
    assert c[11..17] == "coffee" by {
      assert c[11] == 'c' && c[12] == 'o' && c[13] == 'f' && c[14] == 'f' && c[15] == 'e' && c[16] == 'e';
    }
    assert OccursAt(c, "coffee", 11);
  }

  /** The "Salary Deposit" row fails the query `coffee`: its search text has
      no letter f in either case. */
  lemma SalaryMissesCoffee()
    ensures !Matches(Salary, "coffee", "all")
  {
    ToLowerOfLower("coffee");
    var t := SearchText(Salary);
    var c := ToLower(t);
    assert forall i :: 0 <= i < |t| ==> t[i] != 'f' && t[i] != 'F';
    NotIncludedWithoutChar(c, "coffee", 2);
  }

  /** Worked example: a lower-case query finds the one description that
      contains it in another case. */
  lemma QueryExample()
    ensures FilteredTransactions([Coffee, Salary], "coffee", "all") == [Coffee]
  {
    FilterPair(Coffee, Salary, "coffee", "all");
    CoffeeMatchesCoffee();
    SalaryMissesCoffee();
  }

  /** Worked example: a category value in another case selects the rows of
      that category. */
  lemma CategoryExample()
    ensures FilteredTransactions([Coffee, Salary], "", "income") == [Salary]
  {
    FilterPair(Coffee, Salary, "", "income");
    ToLowerOfLower("income");
    assert ToLower("Income")[0] == 'i';
    assert ToLower("Income") == "income";
    assert ToLower("Dining")[0] == 'd';
  }

  /** The "Coffee Shop" row fails the query `zzz`: its search text has no
      letter z in either case. */
  lemma CoffeeMissesZzz()
    ensures !Matches(Coffee, "zzz", "all")
  {
    ToLowerOfLower("zzz");
    var s := SearchText(Coffee);
    assert forall i :: 0 <= i < |s| ==> s[i] != 'z' && s[i] != 'Z';
    NotIncludedWithoutChar(ToLower(s), "zzz", 0);
  }

  /** The "Salary Deposit" row fails the query `zzz`: its search text has no
      letter z in either case. */
  lemma SalaryMissesZzz()
    ensures !Matches(Salary, "zzz", "all")
  {
    ToLowerOfLower("zzz");
    var s := SearchText(Salary);
    assert forall i :: 0 <= i < |s| ==> s[i] != 'z' && s[i] != 'Z';
    NotIncludedWithoutChar(ToLower(s), "zzz", 0);
  }

  /** Worked example: a query that occurs nowhere shows no rows. */
  lemma NoMatchExample()
    ensures FilteredTransactions([Coffee, Salary], "zzz", "all") == []
  {
    FilterPair(Coffee, Salary, "zzz", "all");
    CoffeeMissesZzz();
    SalaryMissesZzz();
  }
}
