/**
 * The `Article` entity of package io.vertx.intro.first as mutable objects:
 * the static `COUNTER` becomes a `Counter` object every constructor is
 * given, and an `Article` has an immutable id and two mutable, possibly-null
 * string fields.
 */
module First {
  import opened Wrappers
  import ArticleModel

  /** The shared id allocator (a sequential stand-in for `AtomicLong`). */
  class Counter {
    var value: nat
    /** Every id handed out so far. */
    ghost var issued: set<nat>

    /** The ids handed out are exactly those below the counter. */
    ghost predicate Valid()
      reads this
    {
      forall x: nat :: x in issued <==> x < value
    }

    /** `new AtomicLong()` starts at zero. */
    constructor ()
      ensures Valid()
      ensures value == 0 && issued == {}
    {
      value := 0;
      issued := {};
    }

    /** Returns the current value and advances the counter by one. */
    method GetAndIncrement() returns (previous: nat)
      requires Valid()
      modifies this
      ensures Valid()
      ensures previous == old(value) && value == old(value) + 1
      ensures previous !in old(issued) && issued == old(issued) + {previous}
    {
      previous := value;
      value := value + 1;
      issued := issued + {previous};
    }
  }

  class Article {
    const id: nat
    var title: Option<string>
    var url: Option<string>

    function GetId(): nat
    {
      id
    }

    function GetTitle(): Option<string>
      reads this
    {
      title
    }

    function GetUrl(): Option<string>
      reads this
    {
      url
    }

    /**
     * The article's observable state as a record of the value model; the
     * constructors' and setters' last ensures clause is the value-model
     * counterpart of the clauses above it.
     */
    function Value(): ArticleModel.Record
      reads this
    {
      ArticleModel.Record(GetId(), GetTitle(), GetUrl())
    }

    /** `new Article(title, url)`: a fresh id and the given title and url. */
    constructor (counter: Counter, title: Option<string>, url: Option<string>)
      requires counter.Valid()
      modifies counter
      ensures counter.Valid()
      ensures GetId() == old(counter.value) && counter.value == old(counter.value) + 1
      ensures GetId() !in old(counter.issued) && counter.issued == old(counter.issued) + {GetId()}
      ensures GetTitle() == title && GetUrl() == url
      ensures Value() == ArticleModel.Record(old(counter.value), title, url)
    {
      var next := counter.GetAndIncrement();
      this.id := next;
      this.title := title;
      this.url := url;
    }

    /** `new Article()`: a fresh id, title and url left null. */
    constructor Empty(counter: Counter)
      requires counter.Valid()
      modifies counter
      ensures counter.Valid()
      ensures GetId() == old(counter.value) && counter.value == old(counter.value) + 1
      ensures GetId() !in old(counter.issued) && counter.issued == old(counter.issued) + {GetId()}
      ensures GetTitle() == None && GetUrl() == None
      ensures Value() == ArticleModel.Record(old(counter.value), None, None)
    {
      var next := counter.GetAndIncrement();
      this.id := next;
      this.title := None;
      this.url := None;
    }

    /** Overwrites the title only and returns the same object; `id` is a `const`, so it cannot change. */
    method SetTitle(title: Option<string>) returns (self: Article)
      modifies this
      ensures self == this
      ensures GetTitle() == title && GetUrl() == old(GetUrl())
      ensures Value() == ArticleModel.WithTitle(old(Value()), title)
    {
      this.title := title;
      self := this;
    }

    /** Overwrites the url only and returns the same object; `id` is a `const`, so it cannot change. */
    method SetUrl(url: Option<string>) returns (self: Article)
      modifies this
      ensures self == this
      ensures GetUrl() == url && GetTitle() == old(GetTitle())
      ensures Value() == ArticleModel.WithUrl(old(Value()), url)
    {
      this.url := url;
      self := this;
    }
  }

  /**
   * Id freshness for objects: an article built through a counter gets an id
   * different from, and greater than, that of every article built through it
   * before.
   */
  method ConstructAfter(counter: Counter, earlier: Article, title: Option<string>, url: Option<string>)
    returns (later: Article)
    requires counter.Valid() && earlier.GetId() in counter.issued
    modifies counter
    ensures counter.Valid() && fresh(later)
    ensures earlier.GetId() < later.GetId() && earlier.GetId() != later.GetId()
    ensures earlier.GetId() in counter.issued && later.GetId() in counter.issued
  {
    later := new Article(counter, title, url);
  }
}
