/** routers/courses.py: the category store behind /api/courses. Each handler
    loads a dictionary from category id to category, changes it in place and
    saves it; here the dictionary is the field of a CategoryStore object and
    "saved" is the state after the call. */
module Courses {
  import opened Wrappers
  import opened Http

  datatype Course = Course(name: string, link: string, description: string, image: string)

  datatype CourseCategory = CourseCategory(title: string, courses: seq<Course>)

  /** The response of create_category: {"id": new_id, **category}. */
  datatype CreatedCategory = CreatedCategory(id: string, title: string, courses: seq<Course>)

  /** Why a handler failed: an HTTPException it raised, or the ValueError
      that int(key) raises on a stored key that is not an integer. */
  datatype Failure = Raised(exception: HttpException) | KeyNotInteger(key: string)

  const CategoryNotFound := HttpException(NotFound404, "Category not found", map[])

  const CategoryDeleted := "Category deleted successfully"

  // ----- int(key) and str(n) on decimal numerals -----

  predicate IsDigit(c: char)
  {
    '0' <= c <= '9'
  }

  /** A key int() reads as a non-negative integer: one or more ASCII digits. */
  predicate IsNumeral(s: string)
  {
    |s| > 0 && forall i :: 0 <= i < |s| ==> IsDigit(s[i])
  }

  /** int(s) for a numeral s. */
  function Value(s: string): nat
    requires IsNumeral(s)
    decreases |s|
  {
    var last := (s[|s| - 1] as int) - ('0' as int);
    if |s| == 1 then last else 10 * Value(s[..|s| - 1]) + last
  }

  function DigitChar(d: nat): char
    requires d < 10
  {
    (('0' as int) + d) as char
  }

  /** str(n) for n >= 0: a numeral without leading zeros. */
  function Decimal(n: nat): (s: string)
    ensures IsNumeral(s)
    ensures |s| > 1 ==> s[0] != '0'
  {
    if n < 10 then [DigitChar(n)] else Decimal(n / 10) + [DigitChar(n % 10)]
  }

  /** int(str(n)) == n. */
  lemma {:induction false} ValueOfDecimal(n: nat)
    ensures Value(Decimal(n)) == n
  {
    if n >= 10 {
      var s := Decimal(n);
      assert s[..|s| - 1] == Decimal(n / 10);
      ValueOfDecimal(n / 10);
    }
  }

  // ----- the new-id rule of create_category -----

  /** m is max([int(k) for k in keys] + [0]). */
  ghost predicate IsMaxKey(keys: set<string>, m: nat)
  {
    && (forall k :: k in keys ==> IsNumeral(k) && Value(k) <= m)
    && (m == 0 || exists k :: k in keys && IsNumeral(k) && Value(k) == m)
  }

  /** id is str(max([int(k) for k in keys] + [0]) + 1). */
  ghost predicate FollowsIdRule(keys: set<string>, id: string)
  {
    IsNumeral(id) && Value(id) >= 1 && IsMaxKey(keys, Value(id) - 1) && id == Decimal(Value(id))
  }

  /** The id that create_category assigns to a new category given the keys
      already in the store: "1" for an empty store, otherwise one more than
      the largest integer key. A key that is not an integer makes int()
      raise, which is reported as KeyNotInteger. */
  method NextId(keys: set<string>) returns (r: Result<string, Failure>)
    ensures keys == {} ==> r == Ok("1")
    ensures r.Err? <==> exists k :: k in keys && !IsNumeral(k)
    ensures r.Err? ==> r.error.KeyNotInteger? && r.error.key in keys && !IsNumeral(r.error.key)
    ensures r.Ok? ==> FollowsIdRule(keys, r.value)
  {
    if keys == {} {
      ValueOfDecimal(1);
      return Ok("1");
    }
    var m: nat := 0;
    var rest := keys;
    while rest != {}
      invariant rest <= keys
      invariant forall k :: k in keys - rest ==> IsNumeral(k) && Value(k) <= m
      invariant m == 0 || exists k :: k in keys - rest && IsNumeral(k) && Value(k) == m
      decreases rest
    {
      var k :| k in rest;
      if !IsNumeral(k) {
        return Err(KeyNotInteger(k));
      }
      if Value(k) > m {
        m := Value(k);
      }
      rest := rest - {k};
    }
    ValueOfDecimal(m + 1);
    return Ok(Decimal(m + 1));
  }

  /** An id chosen by the rule is new, and exceeds every key already present. */
  lemma FreshId(keys: set<string>, id: string)
    requires FollowsIdRule(keys, id)
    ensures id !in keys
    ensures forall k :: k in keys ==> IsNumeral(k) && Value(k) < Value(id)
  {
  }

  /** The rule picks exactly one id. */
  lemma IdRuleIsDeterministic(keys: set<string>, a: string, b: string)
    requires FollowsIdRule(keys, a) && FollowsIdRule(keys, b)
    ensures a == b
  {
  }

  // ----- the store -----

  class CategoryStore {
    /** The dictionary kept in course_data.json. */
    var data: map<string, CourseCategory>

    /** The contents of the data file; an empty map when the file is missing. */
    constructor (saved: map<string, CourseCategory>)
      ensures data == saved
    {
      data := saved;
    }

    /** Every key is an integer numeral: true of the empty store and kept by
        every handler, since only create_category adds keys. */
    ghost predicate NumeralKeys()
      reads this
    {
      forall k :: k in data ==> IsNumeral(k)
    }

    /** get_all_courses: the whole dictionary. */
    method GetAllCourses() returns (all: map<string, CourseCategory>)
      ensures all == data
    {
      all := data;
    }

    /** get_category: the stored category, or 404. */
    method GetCategory(categoryId: string) returns (r: Result<CourseCategory, Failure>)
      ensures categoryId in data ==> r == Ok(data[categoryId])
      ensures categoryId !in data ==> r == Err(Raised(CategoryNotFound))
    {
      if categoryId !in data {
        return Err(Raised(CategoryNotFound));
      }
      return Ok(data[categoryId]);
    }

    /** create_category: store the category under a fresh id and return it
        with that id. */
    method CreateCategory(category: CourseCategory) returns (r: Result<CreatedCategory, Failure>)
      modifies this
      ensures r.Ok? <==> forall k :: k in old(data) ==> IsNumeral(k)
      ensures r.Ok? ==>
                && FollowsIdRule(old(data).Keys, r.value.id)
                && r.value.id !in old(data)
                && r.value == CreatedCategory(r.value.id, category.title, category.courses)
                && data == old(data)[r.value.id := category]
                && |data| == |old(data)| + 1
      ensures old(data) == map[] ==> r == Ok(CreatedCategory("1", category.title, category.courses))
      ensures r.Err? ==> data == old(data)
      ensures old(NumeralKeys()) ==> NumeralKeys()
    {
      var newId := NextId(data.Keys);
      if newId.Err? {
        return Err(newId.error);
      }
      var id := newId.value;
      FreshId(data.Keys, id);
      data := data[id := category];
      assert data.Keys == old(data).Keys + {id};
      return Ok(CreatedCategory(id, category.title, category.courses));
    }

    /** update_category: replace the whole category stored under an existing
        id, or 404 with nothing saved. */
    method UpdateCategory(categoryId: string, category: CourseCategory) returns (r: Result<CourseCategory, Failure>)
      modifies this
      ensures categoryId !in old(data) ==> r == Err(Raised(CategoryNotFound)) && data == old(data)
      ensures categoryId in old(data) ==> r == Ok(category) && data == old(data)[categoryId := category]
      ensures data.Keys == old(data).Keys
      ensures old(NumeralKeys()) ==> NumeralKeys()
    {
      if categoryId !in data {
        return Err(Raised(CategoryNotFound));
      }
      data := data[categoryId := category];
      return Ok(category);
    }

    /** delete_category: remove an existing id, or 404 with nothing saved. */
    method DeleteCategory(categoryId: string) returns (r: Result<string, Failure>)
      modifies this
      ensures categoryId !in old(data) ==> r == Err(Raised(CategoryNotFound)) && data == old(data)
      ensures categoryId in old(data) ==>
                r == Ok(CategoryDeleted) && data == old(data) - {categoryId} && |data| == |old(data)| - 1
      ensures old(NumeralKeys()) ==> NumeralKeys()
    {
      if categoryId !in data {
        return Err(Raised(CategoryNotFound));
      }
      data := data - {categoryId};
      assert data.Keys == old(data).Keys - {categoryId};
      return Ok(CategoryDeleted);
    }
  }

  /** A client of the store: what callers can conclude from the handlers'
      contracts alone, starting from a missing data file. */
  method CategoryLifecycle(backend: CourseCategory, frontend: CourseCategory)
  {
    var store := new CategoryStore(map[]);
    var first := store.CreateCategory(backend);
    assert first == Ok(CreatedCategory("1", backend.title, backend.courses));
    var second := store.CreateCategory(frontend);
    assert second.Ok?;
    FreshId({"1"}, second.value.id);
    assert second.value.id != "1";
    var got := store.GetCategory("1");
    assert got == Ok(backend);
    var deleted := store.DeleteCategory("1");
    assert deleted == Ok(CategoryDeleted);
    got := store.GetCategory("1");
    assert got == Err(Raised(CategoryNotFound));
    var updated := store.UpdateCategory("1", frontend);
    assert updated == Err(Raised(CategoryNotFound));
  }
}
