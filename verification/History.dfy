/** The contents of a database table over time. */
module History {

  /** A content and the instant from which it stands. */
  datatype Version<T> = Version(since: int, table: T)

  function Current<T>(hist: seq<Version<T>>): T
    requires hist != []
  {
    hist[|hist| - 1].table
  }

  /** The table's content at an instant. */
  function TableAt<T>(hist: seq<Version<T>>, t: int): T
    requires hist != []
  {
    if |hist| == 1 || hist[|hist| - 1].since <= t then hist[|hist| - 1].table else TableAt(hist[..|hist| - 1], t)
  }

  /** A later change does not touch what the table was before it. */
  lemma PastStands<T>(hist: seq<Version<T>>, v: Version<T>, t: int)
    requires hist != [] && t < v.since
    ensures TableAt(hist + [v], t) == TableAt(hist, t)
  {
    assert (hist + [v])[..|hist|] == hist;
  }

  /** The content was the table's at some instant in (after, upTo]. */
  ghost predicate SeenWithin<T(!new)>(hist: seq<Version<T>>, content: T, after: int, upTo: int)
    requires hist != []
  {
    exists t :: after < t <= upTo && TableAt(hist, t) == content
  }

  lemma SeenStands<T(!new)>(hist: seq<Version<T>>, v: Version<T>, content: T, after: int, upTo: int)
    requires hist != [] && upTo < v.since && SeenWithin(hist, content, after, upTo)
    ensures SeenWithin(hist + [v], content, after, upTo)
  {
    var t :| after < t <= upTo && TableAt(hist, t) == content;
    PastStands(hist, v, t);
  }
}
