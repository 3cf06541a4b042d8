/**
 * A value-level model of the `Article` entity and of the global id counter:
 * an article is a `Record`, and a `Registry` is the counter together with
 * every article constructed so far, in construction order. A sequential
 * history of constructions and setter calls is a sequence of `Op`s, run by
 * `Run`. The lemmas state the id-freshness invariant over every history.
 */
module ArticleModel {
  import opened Wrappers

  /** The observable state of one article: its id, title and url. */
  datatype Record = Record(id: nat, title: Option<string>, url: Option<string>)

  /** The article after `setTitle(title)`: only the title changes. */
  function WithTitle(r: Record, title: Option<string>): (r': Record)
    ensures r'.title == title && r'.id == r.id && r'.url == r.url
  {
    r.(title := title)
  }

  /** The article after `setUrl(url)`: only the url changes. */
  function WithUrl(r: Record, url: Option<string>): (r': Record)
    ensures r'.url == url && r'.id == r.id && r'.title == r.title
  {
    r.(url := url)
  }

  /** The counter's current value and all articles built so far, oldest first. */
  datatype Registry = Registry(counter: nat, articles: seq<Record>)

  /** The state when the class is loaded: `new AtomicLong()` reads zero and no article exists. */
  function Initial(): (w: Registry)
    ensures w.counter == 0 && |w.articles| == 0 && IdsFresh(w)
  {
    Registry(0, [])
  }

  /** One call on the entity: either constructor, or a setter on the `target`-th article built. */
  datatype Op =
    | Construct(title: Option<string>, url: Option<string>)
    | ConstructEmpty
    | SetTitle(target: nat, title: Option<string>)
    | SetUrl(target: nat, url: Option<string>)
  {
    predicate IsConstruction() { Construct? || ConstructEmpty? }
  }

  /** A setter can only be called on an article that exists. */
  predicate Applicable(n: nat, op: Op)
  {
    match op
    case SetTitle(target, _) => target < n
    case SetUrl(target, _) => target < n
    case _ => true
  }

  /** Every setter in `ops` names an article built before it, starting with `n` articles. */
  predicate Applicables(n: nat, ops: seq<Op>)
    decreases |ops|
  {
    ops == [] ||
    (Applicable(n, ops[0]) && Applicables(if ops[0].IsConstruction() then n + 1 else n, ops[1..]))
  }

  /** Number of constructor calls in `ops`. */
  function Constructions(ops: seq<Op>): nat
    decreases |ops|
  {
    if ops == [] then 0
    else (if ops[0].IsConstruction() then 1 else 0) + Constructions(ops[1..])
  }

  /**
   * One call. A constructor appends an article whose id is the counter's
   * value, leaves every earlier article as it was, and advances the counter
   * by one; a setter rewrites one field of an existing article (stated by
   * `SetTitleFrame` and `SetUrlFrame`). No call changes the id of an article
   * that exists.
   */
  function Step(w: Registry, op: Op): (w': Registry)
    requires Applicable(|w.articles|, op)
    ensures |w'.articles| == |w.articles| + (if op.IsConstruction() then 1 else 0)
    ensures w'.counter == w.counter + (if op.IsConstruction() then 1 else 0)
    ensures forall i | 0 <= i < |w.articles| :: w'.articles[i].id == w.articles[i].id
    ensures op.IsConstruction() ==> w'.articles[..|w.articles|] == w.articles
    ensures op.Construct? ==> w'.articles[|w.articles|] == Record(w.counter, op.title, op.url)
    ensures op.ConstructEmpty? ==> w'.articles[|w.articles|] == Record(w.counter, None, None)
  {
    match op
    case Construct(title, url) =>
      Registry(w.counter + 1, w.articles + [Record(w.counter, title, url)])
    case ConstructEmpty =>
      Registry(w.counter + 1, w.articles + [Record(w.counter, None, None)])
    case SetTitle(i, title) =>
      w.(articles := w.articles[i := WithTitle(w.articles[i], title)])
    case SetUrl(i, url) =>
      w.(articles := w.articles[i := WithUrl(w.articles[i], url)])
  }

  /**
   * A whole sequential history, left to right. The counter advances by
   * exactly one per construction, and that many articles are added.
   */
  function Run(w: Registry, ops: seq<Op>): (w': Registry)
    requires Applicables(|w.articles|, ops)
    ensures w'.counter == w.counter + Constructions(ops)
    ensures |w'.articles| == |w.articles| + Constructions(ops)
    decreases |ops|
  {
    if ops == [] then w else Run(Step(w, ops[0]), ops[1..])
  }

  /**
   * Id freshness: every id handed out is below the counter, and ids grow
   * strictly in construction order.
   */
  ghost predicate IdsFresh(w: Registry)
  {
    && (forall i | 0 <= i < |w.articles| :: w.articles[i].id < w.counter)
    && (forall i, j | 0 <= i < j < |w.articles| :: w.articles[i].id < w.articles[j].id)
  }

  /** One call preserves freshness. */
  lemma StepIdsFresh(w: Registry, op: Op)
    requires Applicable(|w.articles|, op)
    requires IdsFresh(w)
    ensures IdsFresh(Step(w, op))
  {
  }

  /** Freshness is preserved by every sequential history. */
  lemma {:induction false} RunIdsFresh(w: Registry, ops: seq<Op>)
    requires Applicables(|w.articles|, ops)
    requires IdsFresh(w)
    ensures IdsFresh(Run(w, ops))
    decreases |ops|
  {
    if ops != [] {
      StepIdsFresh(w, ops[0]);
      RunIdsFresh(Step(w, ops[0]), ops[1..]);
    }
  }

  /**
   * The ids after a history: the articles that existed keep theirs, and the
   * article built k-th during the history got the counter's starting value plus k.
   */
  lemma {:induction false} RunIds(w: Registry, ops: seq<Op>)
    requires Applicables(|w.articles|, ops)
    ensures forall i | 0 <= i < |w.articles| :: Run(w, ops).articles[i].id == w.articles[i].id
    ensures forall j | |w.articles| <= j < |w.articles| + Constructions(ops) ::
      Run(w, ops).articles[j].id == w.counter + (j - |w.articles|)
    decreases |ops|
  {
    if ops != [] {
      var w' := Step(w, ops[0]);
      RunIds(w', ops[1..]);
      if ops[0].IsConstruction() {
        assert w'.articles[|w.articles|].id == w.counter;
      }
    }
  }

  /** From program start, any two articles built through the counter have distinct ids. */
  lemma DistinctIds(ops: seq<Op>, i: nat, j: nat)
    requires Applicables(0, ops)
    requires i < |Run(Initial(), ops).articles| && j < |Run(Initial(), ops).articles|
    ensures Run(Initial(), ops).articles[i].id == Run(Initial(), ops).articles[j].id <==> i == j
  {
    RunIdsFresh(Initial(), ops);
  }

  /** `setTitle` changes exactly the title of its target and nothing else. */
  lemma SetTitleFrame(w: Registry, i: nat, title: Option<string>)
    requires i < |w.articles|
    ensures var w' := Step(w, SetTitle(i, title));
      && w'.counter == w.counter
      && |w'.articles| == |w.articles|
      && w'.articles[i].title == title
      && w'.articles[i].id == w.articles[i].id
      && w'.articles[i].url == w.articles[i].url
      && forall k | 0 <= k < |w.articles| && k != i :: w'.articles[k] == w.articles[k]
  {
  }

  /** `setUrl` changes exactly the url of its target and nothing else. */
  lemma SetUrlFrame(w: Registry, i: nat, url: Option<string>)
    requires i < |w.articles|
    ensures var w' := Step(w, SetUrl(i, url));
      && w'.counter == w.counter
      && |w'.articles| == |w.articles|
      && w'.articles[i].url == url
      && w'.articles[i].id == w.articles[i].id
      && w'.articles[i].title == w.articles[i].title
      && forall k | 0 <= k < |w.articles| && k != i :: w'.articles[k] == w.articles[k]
  {
  }

  /** A history of two setter calls is the two steps one after the other. */
  lemma RunTwo(w: Registry, first: Op, second: Op)
    requires !first.IsConstruction() && !second.IsConstruction()
    requires Applicable(|w.articles|, first) && Applicable(|w.articles|, second)
    ensures Applicables(|w.articles|, [first, second])
    ensures Run(w, [first, second]) == Step(Step(w, first), second)
  {
    var ops := [first, second];
    assert ops[1..] == [second] && ops[1..][1..] == [];
    assert Applicables(|w.articles|, ops[1..]);
    calc {
      Run(w, ops);
      Run(Step(w, first), [second]);
      Run(Step(Step(w, first), second), []);
    }
  }

  /** Setting the title twice keeps only the second value; setting it to the same value twice is setting it once. */
  lemma SetTitleLastWriteWins(w: Registry, i: nat, a: Option<string>, b: Option<string>)
    requires i < |w.articles|
    ensures Run(w, [SetTitle(i, a), SetTitle(i, b)]) == Step(w, SetTitle(i, b))
    ensures Run(w, [SetTitle(i, a), SetTitle(i, a)]) == Step(w, SetTitle(i, a))
  {
    RunTwo(w, SetTitle(i, a), SetTitle(i, b));
    RunTwo(w, SetTitle(i, a), SetTitle(i, a));
    assert Step(Step(w, SetTitle(i, a)), SetTitle(i, b)).articles == Step(w, SetTitle(i, b)).articles;
    assert Step(Step(w, SetTitle(i, a)), SetTitle(i, a)).articles == Step(w, SetTitle(i, a)).articles;
  }

  /** Same for the url. */
  lemma SetUrlLastWriteWins(w: Registry, i: nat, a: Option<string>, b: Option<string>)
    requires i < |w.articles|
    ensures Run(w, [SetUrl(i, a), SetUrl(i, b)]) == Step(w, SetUrl(i, b))
    ensures Run(w, [SetUrl(i, a), SetUrl(i, a)]) == Step(w, SetUrl(i, a))
  {
    RunTwo(w, SetUrl(i, a), SetUrl(i, b));
    RunTwo(w, SetUrl(i, a), SetUrl(i, a));
    assert Step(Step(w, SetUrl(i, a)), SetUrl(i, b)).articles == Step(w, SetUrl(i, b)).articles;
    assert Step(Step(w, SetUrl(i, a)), SetUrl(i, a)).articles == Step(w, SetUrl(i, a)).articles;
  }
}
