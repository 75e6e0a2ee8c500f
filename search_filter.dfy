/**
 * The catalogue's search and filter panel
 * (frontend/FH_book/src/components/SearchFilter.jsx): the category and
 * author option lists, the three-stage filter over the books, and reset.
 */
module SearchFilter {
  import opened Text
  import opened Values
  import opened Seqs

  /** The panel's three inputs. */
  datatype Inputs = Inputs(search: string, category: string, author: string)

  /** The panel as first shown: the search box holds the query it was opened with. */
  function Initial(initialQuery: string): (r: Inputs)
    ensures r.search == initialQuery && r.category == "" && r.author == ""
  {
    Inputs(initialQuery, "", "")
  }

  /** A new query from outside replaces the search text and keeps both selections. */
  function QueryChanged(inputs: Inputs, initialQuery: string): (r: Inputs)
    ensures r.search == initialQuery && r.category == inputs.category && r.author == inputs.author
  {
    inputs.(search := initialQuery)
  }

  // ---------------------------------------------------------------------
  // Option lists

  /** One value placed into a duplicate-free sorted list. */
  function Insert(sorted: seq<string>, x: string): (r: seq<string>)
    requires StrictlySorted(sorted)
    ensures StrictlySorted(r)
    ensures forall y :: y in r <==> y in sorted || y == x
  {
    if sorted == [] then [x]
    else if x == sorted[0] then sorted
    else if Below(x, sorted[0]) then
      assert StrictlySorted([x] + sorted) by {
        forall j | 0 <= j < |sorted| ensures Below(x, sorted[j]) {
          if j > 0 { BelowTransitive(x, sorted[0], sorted[j]); }
        }
      }
      [x] + sorted
    else
      var rest := Insert(sorted[1..], x);
      assert Below(sorted[0], x) by { BelowTotal(x, sorted[0]); }
      assert StrictlySorted([sorted[0]] + rest) by {
        forall j | 0 <= j < |rest| ensures Below(sorted[0], rest[j]) {
          assert rest[j] in sorted[1..] || rest[j] == x;
        }
      }
      [sorted[0]] + rest
  }

  /** `[...new Set(values)].sort()`: each value once, in ascending order. */
  function Options(values: seq<string>): (r: seq<string>)
    ensures StrictlySorted(r)
    ensures forall y :: y in r <==> y in values
  {
    if values == [] then []
    else
      var r := Insert(Options(values[..|values| - 1]), values[|values| - 1]);
      assert values == values[..|values| - 1] + [values[|values| - 1]];
      r
  }

  function Categories(books: seq<Book>): seq<string>
  {
    Options(seq(|books|, i requires 0 <= i < |books| => books[i].category))
  }

  function Authors(books: seq<Book>): seq<string>
  {
    Options(seq(|books|, i requires 0 <= i < |books| => books[i].author))
  }

  /**
   * The category and author lists hold no value twice, are in ascending
   * order, and offer exactly the values the books carry.
   */
  lemma OptionListsSpec(books: seq<Book>)
    ensures StrictlySorted(Categories(books)) && StrictlySorted(Authors(books))
    ensures forall i, j :: 0 <= i < j < |Categories(books)| ==> Categories(books)[i] != Categories(books)[j]
    ensures forall i, j :: 0 <= i < j < |Authors(books)| ==> Authors(books)[i] != Authors(books)[j]
    ensures forall c :: c in Categories(books) <==> exists b :: b in books && b.category == c
    ensures forall a :: a in Authors(books) <==> exists b :: b in books && b.author == a
  {
    var cats := seq(|books|, i requires 0 <= i < |books| => books[i].category);
    var auths := seq(|books|, i requires 0 <= i < |books| => books[i].author);
    SortedDistinct(Categories(books));
    SortedDistinct(Authors(books));
    forall c ensures c in Categories(books) <==> exists b :: b in books && b.category == c {
      if c in cats {
        var i :| 0 <= i < |cats| && cats[i] == c;
        assert books[i] in books;
      }
      if exists b :: b in books && b.category == c {
        var b :| b in books && b.category == c;
        var i :| 0 <= i < |books| && books[i] == b;
        assert cats[i] == c;
      }
    }
    forall a ensures a in Authors(books) <==> exists b :: b in books && b.author == a {
      if a in auths {
        var i :| 0 <= i < |auths| && auths[i] == a;
        assert books[i] in books;
      }
      if exists b :: b in books && b.author == a {
        var b :| b in books && b.author == a;
        var i :| 0 <= i < |books| && books[i] == b;
        assert auths[i] == a;
      }
    }
  }

  lemma SortedDistinct(s: seq<string>)
    requires StrictlySorted(s)
    ensures forall i, j :: 0 <= i < j < |s| ==> s[i] != s[j]
  {
    forall i, j | 0 <= i < j < |s| ensures s[i] != s[j] {
      BelowIrreflexive(s[i]);
    }
  }

  /**
   * A duplicate-free sorted list is determined by its values: the option
   * list does not depend on the order of the books.
   */
  lemma {:induction false} SortedUnique(a: seq<string>, b: seq<string>)
    requires StrictlySorted(a) && StrictlySorted(b)
    requires forall x :: x in a <==> x in b
    ensures a == b
  {
    assert a != [] ==> a[0] in a;
    assert b != [] ==> b[0] in b;
    if a != [] && b != [] {
      assert a[0] == b[0] by {
        assert a[0] in a && b[0] in b;
        var j :| 0 <= j < |b| && b[j] == a[0];
        var i :| 0 <= i < |a| && a[i] == b[0];
        if j > 0 && i > 0 {
          BelowTransitive(a[0], a[i], a[0]);
          BelowIrreflexive(a[0]);
        } else if j > 0 {
          BelowIrreflexive(b[0]);
        }
      }
      SortedDistinct(a);
      SortedDistinct(b);
      forall x ensures x in a[1..] <==> x in b[1..] {
        if x in a[1..] {
          var i :| 1 <= i < |a| && a[i] == x;
          assert x != a[0];
          assert x in b;
        }
        if x in b[1..] {
          var i :| 1 <= i < |b| && b[i] == x;
          assert x != b[0];
          assert x in a;
        }
      }
      SortedUnique(a[1..], b[1..]);
    }
  }

  // ---------------------------------------------------------------------
  // Filtering

  /** The search stage: the lowercased title or author contains the lowercased search text. */
  function MatchesSearch(lowerSearch: string): Book -> bool
  {
    (b: Book) => Contains(ToLower(b.title), lowerSearch) || Contains(ToLower(b.author), lowerSearch)
  }

  function HasCategory(category: string): Book -> bool
  {
    (b: Book) => b.category == category
  }

  function HasAuthor(author: string): Book -> bool
  {
    (b: Book) => b.author == author
  }

  /**
   * The list handed to `onFilter`: the search stage runs when the trimmed
   * search text is non-empty, but matches with the untrimmed lowercased
   * text; the category and author stages run when their selection is
   * non-empty.
   */
  function Filtered(books: seq<Book>, inputs: Inputs): seq<Book>
  {
    var bySearch := Stage(books, MatchesSearch(ToLower(inputs.search)), Trim(inputs.search) != []);
    var byCategory := Stage(bySearch, HasCategory(inputs.category), inputs.category != "");
    Stage(byCategory, HasAuthor(inputs.author), inputs.author != "")
  }

  /** A book passes every active condition. */
  predicate Shown(inputs: Inputs, b: Book)
  {
    && (Trim(inputs.search) != [] ==> MatchesSearch(ToLower(inputs.search))(b))
    && (inputs.category != "" ==> b.category == inputs.category)
    && (inputs.author != "" ==> b.author == inputs.author)
  }

  function ShownBy(inputs: Inputs): Book -> bool
  {
    (b: Book) => Shown(inputs, b)
  }

  /** `handleReset`: all three inputs empty, and so every book shown in its order. */
  function Reset(): (r: Inputs)
    ensures r.search == "" && r.category == "" && r.author == ""
    ensures forall books: seq<Book> :: Filtered(books, r) == books
  {
    Inputs("", "", "")
  }

  /**
   * The three stages are one filter by the conjunction of the active
   * conditions: the result keeps the catalogue's order and holds exactly
   * the books that pass every active condition.
   */
  lemma {:induction false} FilteredIsOneFilter(books: seq<Book>, inputs: Inputs)
    ensures Filtered(books, inputs) == Filter(books, ShownBy(inputs))
  {
    var p1, on1 := MatchesSearch(ToLower(inputs.search)), Trim(inputs.search) != [];
    var p2, on2 := HasCategory(inputs.category), inputs.category != "";
    var p3, on3 := HasAuthor(inputs.author), inputs.author != "";
    if books != [] {
      FilteredIsOneFilter(books[1..], inputs);
      var r1 := Stage(books, p1, on1);
      var t1 := Stage(books[1..], p1, on1);
      assert r1 == (if !on1 || p1(books[0]) then [books[0]] + t1 else t1);
      var r2 := Stage(r1, p2, on2);
      var t2 := Stage(t1, p2, on2);
      if !on1 || p1(books[0]) {
        assert ([books[0]] + t1)[1..] == t1;
      }
      assert r2 == (if (!on1 || p1(books[0])) && (!on2 || p2(books[0])) then [books[0]] + t2 else t2);
      var t3 := Stage(t2, p3, on3);
      if (!on1 || p1(books[0])) && (!on2 || p2(books[0])) {
        assert ([books[0]] + t2)[1..] == t2;
      }
      assert Stage(r2, p3, on3) == (if Shown(inputs, books[0]) then [books[0]] + t3 else t3);
    }
  }

  lemma FilteredSpec(books: seq<Book>, inputs: Inputs)
    ensures IsSubsequence(Filtered(books, inputs), books)
    ensures forall b :: b in Filtered(books, inputs) <==> b in books && Shown(inputs, b)
  {
    FilteredIsOneFilter(books, inputs);
    FilterIsSubsequence(books, ShownBy(inputs));
    forall b ensures b in Filtered(books, inputs) <==> b in books && Shown(inputs, b) {
      FilterMembership(books, ShownBy(inputs), b);
    }
  }

  /** Running the stages in any other order, here author, then search, then category, gives the same list. */
  lemma StageOrderIrrelevant(books: seq<Book>, inputs: Inputs)
    ensures Filtered(books, inputs) ==
      Stage(Stage(Stage(books, HasAuthor(inputs.author), inputs.author != ""),
                  MatchesSearch(ToLower(inputs.search)), Trim(inputs.search) != []),
            HasCategory(inputs.category), inputs.category != "")
  {
    var p1, on1 := MatchesSearch(ToLower(inputs.search)), Trim(inputs.search) != [];
    var p2, on2 := HasCategory(inputs.category), inputs.category != "";
    var p3, on3 := HasAuthor(inputs.author), inputs.author != "";
    StagesCommute(Stage(books, p1, on1), p2, on2, p3, on3);
    StagesCommute(books, p1, on1, p3, on3);
    StagesCommute(Stage(books, p3, on3), p1, on1, p2, on2);
  }

  lemma StagesCommute(s: seq<Book>, p: Book -> bool, onP: bool, q: Book -> bool, onQ: bool)
    ensures Stage(Stage(s, p, onP), q, onQ) == Stage(Stage(s, q, onQ), p, onP)
  {
    if onP && onQ {
      FilterFilter(s, p, q);
    }
  }

  /** A search of only white space is ignored: the list is filtered by the two selections alone. */
  lemma BlankSearchIgnored(books: seq<Book>, inputs: Inputs)
    requires forall i :: 0 <= i < |inputs.search| ==> IsSpace(inputs.search[i])
    ensures Filtered(books, inputs) == Filtered(books, inputs.(search := ""))
  {
    TrimEmptyIffBlank(inputs.search);
  }

  /** The search ignores the case of its text. */
  lemma SearchIgnoresCase(books: seq<Book>, inputs: Inputs)
    ensures Filtered(books, inputs.(search := ToLower(inputs.search))) == Filtered(books, inputs)
  {
    ToLowerIdempotent(inputs.search);
    TrimToLower(inputs.search);
  }

  /**
   * The search text is trimmed only to decide whether the search runs: a
   * leading space stays part of the text matched, so " java" does not find
   * a book titled "Java".
   */
  lemma UntrimmedSearchText()
    ensures var book := Book(1, "Java", "Ann", "Tech", "", Finite(5), Finite(1), NoImage);
      Filtered([book], Inputs(" java", "", "")) == []
      && Filtered([book], Inputs("java", "", "")) == [book]
  {
    LeadingSpaceMisses();
    PlainTextFinds();
  }

  lemma LeadingSpaceMisses()
    ensures var book := Book(1, "Java", "Ann", "Tech", "", Finite(5), Finite(1), NoImage);
      Filtered([book], Inputs(" java", "", "")) == []
  {
    var book := Book(1, "Java", "Ann", "Tech", "", Finite(5), Finite(1), NoImage);
    SearchOnly(book, " java");
    LeadingSpaceNoMatch();
  }

  lemma LeadingSpaceNoMatch()
    ensures var book := Book(1, "Java", "Ann", "Tech", "", Finite(5), Finite(1), NoImage);
      ToLower(" java") == " java" && !MatchesSearch(" java")(book)
  {
    LowerExamples();
  }

  lemma PlainTextFinds()
    ensures var book := Book(1, "Java", "Ann", "Tech", "", Finite(5), Finite(1), NoImage);
      Filtered([book], Inputs("java", "", "")) == [book]
  {
    var book := Book(1, "Java", "Ann", "Tech", "", Finite(5), Finite(1), NoImage);
    SearchOnly(book, "java");
    PlainTextMatches();
  }

  lemma PlainTextMatches()
    ensures var book := Book(1, "Java", "Ann", "Tech", "", Finite(5), Finite(1), NoImage);
      ToLower("java") == "java" && MatchesSearch("java")(book)
  {
    LowerExamples();
    assert OccursAt("java", "java", 0);
  }

  /** A search alone, over one book, keeps it exactly when it matches. */
  lemma SearchOnly(book: Book, search: string)
    requires search != [] && !IsSpace(search[|search| - 1])
    ensures Filtered([book], Inputs(search, "", "")) ==
            (if MatchesSearch(ToLower(search))(book) then [book] else [])
  {
    TrimEmptyIffBlank(search);
  }

  lemma LowerExamples()
    ensures ToLower("Java") == "java" && ToLower("java") == "java"
    ensures ToLower("Ann") == "ann" && ToLower(" java") == " java"
  {
  }
}
