# Article: id allocation and fluent setters

This project models `Article`, the entity of the tutorial's in-memory REST
API (package `io.vertx.intro.first`), and proves its id-freshness invariant.

- A static `AtomicLong COUNTER`, starting at zero, hands out ids. Both
  constructors take the counter's current value as the new article's `id`
  and advance the counter by one (`getAndIncrement`).
- An article has a final `id` and two mutable, nullable string fields,
  `title` and `url`. The no-argument constructor leaves both null.
- `setTitle` and `setUrl` overwrite one field each and return the same object.

Files:

- `article.dfy`, module `First`: the imperative model. `Counter` stands for
  the static counter and is passed to each constructor explicitly. It keeps
  a ghost set of the ids handed out so far, and its `Valid()` says that
  these are exactly the numbers below the counter. `Article` has `const id` and mutable
  `Option<string>` fields. The getters are functions, so contracts can use
  them. The two constructors and the two setters state the new state
  exactly, and they also tie the article's `Value()` to the value model.
- `article_model.dfy`, module `ArticleModel`: the same entity as values. A
  `Registry` is the counter plus every article built so far, oldest first.
  A sequential history of constructor and setter calls is a sequence of
  `Op`s, run by `Run`. `Step`'s contract states what one call does to the counter, to the
  article count and to the ids, and that a constructor appends one record and
  keeps every earlier one unchanged. `SetTitleFrame` and `SetUrlFrame`
  state what a setter does to the articles. `Run`'s contract states how far
  the counter and the article count advance over a whole history. The lemmas state freshness for every history: ids
  grow strictly in construction order and are all below the counter. They
  also state the exact ids handed out, that setters never change an id,
  and that setters are last-write-wins and idempotent.
- `wrappers.dfy`: `Option`, standing for a possibly-null Java reference.

Java's `String` parameters may be null, so the constructor and setter
parameters are `Option<string>` too.

## Model

| member | source | states |
|---|---|---|
| `First.Counter.constructor` | post-3/src/main/java/io/vertx/intro/first/Article.java:8 | the counter starts at zero with no ids issued; its invariant says the issued ids are exactly those below the counter |
| `First.Counter.GetAndIncrement` | post-3/src/main/java/io/vertx/intro/first/Article.java:17 | returns the value before the call, advances the counter by exactly one, and the returned id was never issued before |
| `First.Article.constructor` | post-3/src/main/java/io/vertx/intro/first/Article.java:16-20 | `getId()` is the counter's value before the call and was never issued; the counter advances by one; `getTitle()` and `getUrl()` are exactly the arguments |
| `First.Article.Empty` | post-3/src/main/java/io/vertx/intro/first/Article.java:22-24 | a fresh id taken from the counter as above; `getTitle()` and `getUrl()` are null |
| `First.Article.GetId` | post-3/src/main/java/io/vertx/intro/first/Article.java:26-28 | a pure read of the id fixed at construction (its value is stated by the constructors) |
| `First.Article.GetTitle` | post-3/src/main/java/io/vertx/intro/first/Article.java:30-32 | a pure read of the title (its value is stated by the constructors and `SetTitle`) |
| `First.Article.GetUrl` | post-3/src/main/java/io/vertx/intro/first/Article.java:39-41 | a pure read of the url (its value is stated by the constructors and `SetUrl`) |
| `First.Article.SetTitle` | post-3/src/main/java/io/vertx/intro/first/Article.java:34-37 | `getTitle()` becomes the argument, `getUrl()` is unchanged, the id is a `const`, nothing else is modified, and the result is the same object |
| `First.Article.SetUrl` | post-3/src/main/java/io/vertx/intro/first/Article.java:43-46 | `getUrl()` becomes the argument, `getTitle()` is unchanged, the id is a `const`, nothing else is modified, and the result is the same object |
| `First.ConstructAfter` | post-3/src/main/java/io/vertx/intro/first/Article.java:8-24 | an article built through a counter after another gets a strictly greater, hence different, id; both ids stay recorded as issued |
| `ArticleModel.WithTitle` | post-3/src/main/java/io/vertx/intro/first/Article.java:34-37 | the record after `setTitle`: the title is the argument, the id and url are those of the record before |
| `ArticleModel.WithUrl` | post-3/src/main/java/io/vertx/intro/first/Article.java:43-46 | the record after `setUrl`: the url is the argument, the id and title are those of the record before |
| `ArticleModel.Initial` | post-3/src/main/java/io/vertx/intro/first/Article.java:8 | the state at class load: counter zero, no articles, and the freshness invariant holds |
| `ArticleModel.Step` | post-3/src/main/java/io/vertx/intro/first/Article.java:16-46 | one call: a constructor appends a record with the counter's value as id (and the given title and url, or nulls for the no-argument form), keeps every earlier article unchanged, and advances the counter by one; a setter keeps the article count and the counter; no call changes an existing article's id (what a setter does to the fields is stated by `SetTitleFrame` and `SetUrlFrame`) |
| `ArticleModel.Run` | post-3/src/main/java/io/vertx/intro/first/Article.java:16-46 | a sequential history of calls: the counter advances by exactly the number of constructions, and that many articles are added |
| `ArticleModel.StepIdsFresh` | post-3/src/main/java/io/vertx/intro/first/Article.java:16-24 | one call preserves freshness: all ids below the counter and strictly increasing in construction order |
| `ArticleModel.RunIdsFresh` | post-3/src/main/java/io/vertx/intro/first/Article.java:16-24 | every sequential history of constructions and setter calls preserves freshness |
| `ArticleModel.RunIds` | post-3/src/main/java/io/vertx/intro/first/Article.java:16-24 | after a history the earlier articles keep their ids, and the article built k-th in it got the starting counter value plus k |
| `ArticleModel.DistinctIds` | post-3/src/main/java/io/vertx/intro/first/Article.java:8-24 | from program start, two articles built through the counter have the same id if and only if they are the same article |
| `ArticleModel.SetTitleFrame` | post-3/src/main/java/io/vertx/intro/first/Article.java:34-37 | `setTitle` changes only its target's title; the counter, the target's id and url, and every other article are unchanged |
| `ArticleModel.SetUrlFrame` | post-3/src/main/java/io/vertx/intro/first/Article.java:43-46 | `setUrl` changes only its target's url; the counter, the target's id and title, and every other article are unchanged |
| `ArticleModel.SetTitleLastWriteWins` | post-3/src/main/java/io/vertx/intro/first/Article.java:34-37 | two `setTitle` calls leave the second value, and repeating the same `setTitle` equals calling it once |
| `ArticleModel.SetUrlLastWriteWins` | post-3/src/main/java/io/vertx/intro/first/Article.java:43-46 | two `setUrl` calls leave the second value, and repeating the same `setUrl` equals calling it once |

## Left out

- Atomicity of `AtomicLong.getAndIncrement`: the counter is a plain field updated sequentially. Concurrent construction is not modelled.
- First.Counter.GetAndIncrement: uses an unbounded `nat`, so the wrap-around of a `long` past `Long.MAX_VALUE` is not modelled.
- First.Article.GetId: returns a `nat` where Java returns a signed 64-bit `long`. The counter never goes negative before it wraps, and the wrap is left out as above.
- The counter's being static: Dafny has no static mutable fields, so the one global `Counter` is passed to the constructors. With more than one `Counter` object, ids are fresh only per counter.
- The rest of the repository (HTTP verticles and routing, JSON mapping, JDBC persistence, configuration, Vert.x futures) is not part of this model. It is framework and I/O code.
