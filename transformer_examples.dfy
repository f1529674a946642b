/**
 * The transformer run on the sample document of the transformer's tests: each lemma states
 * the output for one mapping tree or one fetch expression.
 */
module MappingExamples {
  import opened Php
  import opened Mapping

  function Favorites(): Value {
    Arr([(StrKey("sports"), Arr([(IntKey(0), Str("Table tennis"))])),
         (StrKey("books"), Arr([(IntKey(0), Str("Time machine"))]))])
  }

  function Address(): Value {
    Arr([(StrKey("building"), Int(47)), (StrKey("street"), Int(47)),
         (StrKey("city"), Str("fortyseven")), (StrKey("country"), Int(47))])
  }

  /** The sample record. */
  function Sample(): Value {
    Arr([(StrKey("first_name"), Str("shady")), (StrKey("last_name"), Str("sharaf")),
         (StrKey("address"), Address()), (StrKey("favorites"), Favorites()),
         (StrKey("registered"), Int(1646014407))])
  }

  // ---------------------------------------------------------------------------------------
  // Steps shared by the examples

  lemma FirstName() ensures Index(Sample(), "first_name") == Some(Str("shady")) {}
  lemma AddressKey() ensures Index(Sample(), "address") == Some(Address()) {}
  lemma FavoritesKey() ensures Index(Sample(), "favorites") == Some(Favorites()) {}
  lemma NoAge() ensures Index(Sample(), "age") == None {}
  lemma NoFavorite() ensures Index(Sample(), "favorite") == None {}
  lemma City() ensures Index(Address(), "city") == Some(Str("fortyseven")) {}
  lemma Sports() ensures Index(Favorites(), "sports") == Some(Arr([(IntKey(0), Str("Table tennis"))])) {}
  lemma Books() ensures Index(Favorites(), "books") == Some(Arr([(IntKey(0), Str("Time machine"))])) {}
  lemma FirstBook()
    ensures Index(Arr([(IntKey(0), Str("Time machine"))]), "0") == Some(Str("Time machine"))
  {
    assert NormalizeKey("0") == IntKey(0);
  }

  lemma PipeFree()
    ensures '|' !in "favorites.sports" && '|' !in "favorites.books" && '|' !in "address.city"
    ensures '|' !in "favorites.books.0" && '|' !in "favorite.tracks" && '|' !in "first_name" && '|' !in "age"
  {
  }

  lemma SportsSegments() ensures Explode("favorites.sports", '.') == ["favorites", "sports"] {
    assert "favorites.sports" == "favorites" + "." + "sports";
    Segments2("favorites", "sports");
  }
  lemma BooksSegments() ensures Explode("favorites.books", '.') == ["favorites", "books"] {
    assert "favorites.books" == "favorites" + "." + "books";
    Segments2("favorites", "books");
  }
  lemma CitySegments() ensures Explode("address.city", '.') == ["address", "city"] {
    assert "address.city" == "address" + "." + "city";
    Segments2("address", "city");
  }
  lemma BookSegments() ensures Explode("favorites.books.0", '.') == ["favorites", "books", "0"] {
    assert "favorites.books.0" == "favorites" + "." + "books" + "." + "0";
    Segments3("favorites", "books", "0");
  }
  lemma TracksSegments() ensures Explode("favorite.tracks", '.') == ["favorite", "tracks"] {
    assert "favorite.tracks" == "favorite" + "." + "tracks";
    Segments2("favorite", "tracks");
  }
  lemma FirstNameSegments() ensures Explode("first_name", '.') == ["first_name"] {
    ExplodeNoDelimiter("first_name", '.');
  }
  lemma AgeSegments() ensures Explode("age", '.') == ["age"] {
    ExplodeNoDelimiter("age", '.');
  }

  /** A walk of two or three segments, one lookup after the other. */
  lemma Walk2(v: Value, a: string, b: string, x: Value, found: Option<Value>)
    requires Index(v, a) == Some(x) && Index(x, b) == found
    ensures Walk(v, [a, b]) == found
  {
    WalkStep(v, [a, b], 0);
    WalkStep(x, [a, b], 1);
    assert [a, b][0..] == [a, b];
    assert [a, b][2..] == [];
  }

  lemma Walk3(v: Value, a: string, b: string, c: string, x: Value, y: Value, found: Option<Value>)
    requires Index(v, a) == Some(x) && Index(x, b) == Some(y) && Index(y, c) == found
    ensures Walk(v, [a, b, c]) == found
  {
    WalkStep(v, [a, b, c], 0);
    WalkStep(x, [a, b, c], 1);
    WalkStep(y, [a, b, c], 2);
    assert [a, b, c][0..] == [a, b, c];
    assert [a, b, c][3..] == [];
  }

  /** `WordKey` for a key of the sample trees. */
  lemma NotNumeric(s: string)
    requires s in {"age", "favorites", "city", "favoriteBook", "firstName", "tracks"}
    ensures !IsNumericKey(StrKey(s))
  {
    WordKey(s);
  }

  // ---------------------------------------------------------------------------------------
  // The examples

  /** An empty branch leaves its key out. */
  lemma EmptyBranchSkipsKey(hash: Value -> string)
    ensures TransformSpec(hash, Sample(), [(StrKey("age"), Path(""))]) == Ok([])
  {
    assert TransformPrefix(hash, Sample(), [(StrKey("age"), Path(""))], 0) == Ok([]);
  }

  lemma SportsPath(hash: Value -> string)
    ensures FetchSpec(hash, Sample(), "favorites.sports") == Ok(Arr([(IntKey(0), Str("Table tennis"))]))
  {
    PipeFree();
    SportsSegments();
    FavoritesKey();
    Sports();
    Walk2(Sample(), "favorites", "sports", Favorites(), Some(Arr([(IntKey(0), Str("Table tennis"))])));
    FetchAlong(hash, Sample(), "favorites.sports", ["favorites", "sports"], Some(Arr([(IntKey(0), Str("Table tennis"))])));
  }

  lemma BooksPath(hash: Value -> string)
    ensures FetchSpec(hash, Sample(), "favorites.books") == Ok(Arr([(IntKey(0), Str("Time machine"))]))
  {
    PipeFree();
    BooksSegments();
    FavoritesKey();
    Books();
    Walk2(Sample(), "favorites", "books", Favorites(), Some(Arr([(IntKey(0), Str("Time machine"))])));
    FetchAlong(hash, Sample(), "favorites.books", ["favorites", "books"], Some(Arr([(IntKey(0), Str("Time machine"))])));
  }

  lemma TwoTitles()
    ensures Renumber([(IntKey(0), Str("Table tennis"))] + [(IntKey(0), Str("Time machine"))], 0)
            == [(IntKey(0), Str("Table tennis")), (IntKey(1), Str("Time machine"))]
  {
  }

  /** The inner tree of the merge example. */
  lemma MergedLists(hash: Value -> string)
    ensures TransformSpec(hash, Sample(), [(IntKey(0), Path("favorites.sports")), (IntKey(1), Path("favorites.books"))])
            == Ok([(IntKey(0), Str("Table tennis")), (IntKey(1), Str("Time machine"))])
  {
    SportsPath(hash);
    BooksPath(hash);
    SpliceLists(hash, Sample(), "favorites.sports", "favorites.books", IntKey(0), IntKey(1));
    TwoTitles();
  }

  /** Numeric keys splice the fetched lists into the nested level, one after the other. */
  lemma NumericIndexMergesArray(hash: Value -> string)
    ensures TransformSpec(hash, Sample(), [(StrKey("favorites"),
              Nested([(IntKey(0), Path("favorites.sports")), (IntKey(1), Path("favorites.books"))]))])
            == Ok([(StrKey("favorites"), Arr([(IntKey(0), Str("Table tennis")), (IntKey(1), Str("Time machine"))]))])
  {
    var inner := [(IntKey(0), Path("favorites.sports")), (IntKey(1), Path("favorites.books"))];
    var merged := Arr([(IntKey(0), Str("Table tennis")), (IntKey(1), Str("Time machine"))]);
    MergedLists(hash);
    NotNumeric("favorites");
    assert BranchValue(hash, Sample(), Nested(inner)) == Ok(merged);
    OneEntry(hash, Sample(), StrKey("favorites"), Nested(inner), merged);
  }

  lemma CityPath(hash: Value -> string)
    ensures FetchSpec(hash, Sample(), "address.city") == Ok(Str("fortyseven"))
  {
    PipeFree();
    CitySegments();
    AddressKey();
    City();
    Walk2(Sample(), "address", "city", Address(), Some(Str("fortyseven")));
    FetchAlong(hash, Sample(), "address.city", ["address", "city"], Some(Str("fortyseven")));
  }

  lemma BookPath(hash: Value -> string)
    ensures FetchSpec(hash, Sample(), "favorites.books.0") == Ok(Str("Time machine"))
  {
    PipeFree();
    BookSegments();
    FavoritesKey();
    Books();
    FirstBook();
    Walk3(Sample(), "favorites", "books", "0", Favorites(), Arr([(IntKey(0), Str("Time machine"))]), Some(Str("Time machine")));
    FetchAlong(hash, Sample(), "favorites.books.0", ["favorites", "books", "0"], Some(Str("Time machine")));
  }

  /** Dotted paths descend through nested arrays, and a numeric segment indexes a list. */
  lemma NestedBranchTraversed(hash: Value -> string)
    ensures TransformSpec(hash, Sample(), [(StrKey("city"), Path("address.city")),
                                           (StrKey("favoriteBook"), Path("favorites.books.0"))])
            == Ok([(StrKey("city"), Str("fortyseven")), (StrKey("favoriteBook"), Str("Time machine"))])
  {
    CityPath(hash);
    BookPath(hash);
    NotNumeric("city");
    NotNumeric("favoriteBook");
    TwoEntries(hash, Sample(), StrKey("city"), Path("address.city"), Str("fortyseven"),
               StrKey("favoriteBook"), Path("favorites.books.0"), Str("Time machine"));
  }

  lemma FirstNamePath(hash: Value -> string)
    ensures FetchSpec(hash, Sample(), "first_name") == Ok(Str("shady"))
  {
    PipeFree();
    FirstNameSegments();
    FirstName();
    FetchAlong(hash, Sample(), "first_name", ["first_name"], Some(Str("shady")));
  }

  lemma BasicStringBranch(hash: Value -> string)
    ensures TransformSpec(hash, Sample(), [(StrKey("firstName"), Path("first_name"))])
            == Ok([(StrKey("firstName"), Str("shady"))])
  {
    FirstNamePath(hash);
    NotNumeric("firstName");
    OneEntry(hash, Sample(), StrKey("firstName"), Path("first_name"), Str("shady"));
  }

  /** A path to a key the record does not have yields null, and the key is left out. */
  lemma NotFoundReference(hash: Value -> string)
    ensures FetchSpec(hash, Sample(), "age") == Ok(Null)
    ensures TransformSpec(hash, Sample(), [(StrKey("age"), Path("age"))]) == Ok([])
  {
    PipeFree();
    AgeSegments();
    NoAge();
    FetchAlong(hash, Sample(), "age", ["age"], None);
    NotNumeric("age");
    OneEntry(hash, Sample(), StrKey("age"), Path("age"), Null);
  }

  lemma TracksPath(hash: Value -> string)
    ensures FetchSpec(hash, Sample(), "favorite.tracks") == Ok(Null)
  {
    PipeFree();
    TracksSegments();
    NoFavorite();
    FetchAlong(hash, Sample(), "favorite.tracks", ["favorite", "tracks"], None);
  }

  /** A path that stops at its first segment leaves the key out. */
  lemma EmptyNestedBranch(hash: Value -> string)
    ensures TransformSpec(hash, Sample(), [(StrKey("tracks"), Path("favorite.tracks"))]) == Ok([])
  {
    TracksPath(hash);
    NotNumeric("tracks");
    OneEntry(hash, Sample(), StrKey("tracks"), Path("favorite.tracks"), Null);
  }

  lemma CallbackParts()
    ensures "first_name|ucfirst" == "first_name" + "|" + "ucfirst"
    ensures '|' !in "first_name" && '|' !in "ucfirst" && "ucfirst" != "static"
  {
  }

  lemma UcfirstShady(hash: Value -> string)
    ensures Callbacks.Apply("ucfirst", Str("shady"), hash) == Ok(Str("Shady"))
  {
    Callbacks.UcfirstExample();
  }

  /** A callback is applied to the value found. */
  lemma CallbackExample(hash: Value -> string)
    ensures FetchSpec(hash, Sample(), "first_name|ucfirst") == Ok(Str("Shady"))
  {
    CallbackParts();
    FirstNameSegments();
    FirstName();
    PathWithCallback(hash, Sample(), "first_name", "ucfirst");
    UcfirstShady(hash);
  }

  /** A `static` expression is its own text. */
  lemma StaticExample(hash: Value -> string)
    ensures FetchSpec(hash, Sample(), "Something something|static") == Ok(Str("Something something"))
  {
    assert "Something something|static" == "Something something" + "|static";
    StaticLiteral(hash, Sample(), "Something something");
  }
}
