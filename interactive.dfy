/**
 * The prompt loop at the end of `Main` in Program.cs: read a title; stop on a
 * null or blank title; otherwise read a description, run the prediction engine
 * on the new `Input`, show its three best classes, and start again.
 *
 * The console is a sequence of lines (`ReadLine` yields null once they are
 * used up), and the prediction engine is a function from an input to its
 * score vector.
 */
module Interactive {
  import opened Wrappers
  import opened Issues
  import opened Ranking

  /**
   * `char.IsWhiteSpace` of .NET: the Unicode space separators, the line and
   * paragraph separators, and the control characters U+0009 to U+000D and U+0085.
   */
  predicate IsWhiteSpace(c: char)
  {
    || c == ' ' || '\t' <= c <= '\r' || c == '\U{85}' || c == '\U{A0}' || c == '\U{1680}'
    || '\U{2000}' <= c <= '\U{200A}' || c == '\U{2028}' || c == '\U{2029}'
    || c == '\U{202F}' || c == '\U{205F}' || c == '\U{3000}'
  }

  /** `string.IsNullOrWhiteSpace`: null, empty, or nothing but white space. */
  predicate IsNullOrWhiteSpace(s: Option<string>)
  {
    match s
    case None => true
    case Some(t) => forall k :: 0 <= k < |t| ==> IsWhiteSpace(t[k])
  }

  /** `Console.ReadLine` as the line at `pos` of the console's input, or null past its end. */
  function ReadLine(lines: seq<string>, pos: nat): Option<string>
  {
    if pos < |lines| then Some(lines[pos]) else None
  }

  /**
   * The inputs the loop hands to the prediction engine, when its next read is at
   * `pos`: each iteration reads a title and, unless the title ends the loop, a
   * description; the fixer of a fresh `Input` stays null.
   */
  function Queries(lines: seq<string>, pos: nat): seq<Input>
    decreases |lines| - pos
  {
    var title := ReadLine(lines, pos);
    if IsNullOrWhiteSpace(title) then []
    else [Input(title, ReadLine(lines, pos + 1), None)] + Queries(lines, pos + 2)
  }

  /**
   * The `do`/`while (true)` loop of `Main`. Returns the inputs it passed to
   * `predict`, in order, and for each of them the entries it wrote to the
   * console, which are `GetPredictions` of its scores.
   */
  method Prompt(lines: seq<string>, slotNames: seq<string>, predict: Input -> seq<int>)
    returns (queries: seq<Input>, shown: seq<seq<Ranked>>)
    ensures queries == Queries(lines, 0)
    ensures |shown| == |queries|
    ensures forall k :: 0 <= k < |shown| ==> shown[k] == GetPredictions(predict(queries[k]), slotNames)
  {
    queries, shown := [], [];
    var pos := 0;
    while true
      invariant queries + Queries(lines, pos) == Queries(lines, 0)
      invariant |shown| == |queries|
      invariant forall k :: 0 <= k < |shown| ==> shown[k] == GetPredictions(predict(queries[k]), slotNames)
      decreases |lines| - pos
    {
      ghost var start := pos;
      var input := Input(None, None, None);
      input := input.(title := ReadLine(lines, pos));
      pos := pos + 1;
      if IsNullOrWhiteSpace(input.title) {
        break;
      }
      input := input.(description := ReadLine(lines, pos));
      pos := pos + 1;
      var pred := predict(input);
      var ranked := GetPredictions(pred, slotNames);
      assert Queries(lines, start) == [input] + Queries(lines, pos);
      assert (queries + [input]) + Queries(lines, pos) == queries + Queries(lines, start);
      queries := queries + [input];
      shown := shown + [ranked];
    }
  }

  /** The line at `pos` ends the loop. */
  predicate StopsAt(lines: seq<string>, pos: nat)
  {
    IsNullOrWhiteSpace(ReadLine(lines, pos))
  }

  /**
   * Query `k` of a loop started at `pos` is the title read at `pos + 2k`, which does not
   * end the loop, with the line after it as description (null at the end of the input).
   */
  lemma {:induction false} QueriesAt(lines: seq<string>, pos: nat)
    ensures forall k :: 0 <= k < |Queries(lines, pos)| ==>
      && !StopsAt(lines, pos + 2 * k)
      && Queries(lines, pos)[k] == Input(ReadLine(lines, pos + 2 * k), ReadLine(lines, pos + 2 * k + 1), None)
    decreases |lines| - pos
  {
    if !StopsAt(lines, pos) {
      var qs, rest := Queries(lines, pos), Queries(lines, pos + 2);
      QueriesAt(lines, pos + 2);
      forall k | 1 <= k < |qs|
        ensures !StopsAt(lines, pos + 2 * k)
        ensures qs[k] == Input(ReadLine(lines, pos + 2 * k), ReadLine(lines, pos + 2 * k + 1), None)
      {
        assert qs[k] == rest[k - 1];
        assert pos + 2 + 2 * (k - 1) == pos + 2 * k;
      }
    }
  }

  /** The title read after the last query, at `pos + 2 * |Queries(lines, pos)|`, ends the loop. */
  lemma {:induction false} QueriesEndAtStop(lines: seq<string>, pos: nat)
    ensures StopsAt(lines, pos + 2 * |Queries(lines, pos)|)
    decreases |lines| - pos
  {
    if !StopsAt(lines, pos) {
      QueriesEndAtStop(lines, pos + 2);
      assert |Queries(lines, pos)| == 1 + |Queries(lines, pos + 2)|;
    }
  }

  /**
   * The loop started at `pos` makes exactly `n` queries if and only if the titles read
   * at `pos`, `pos + 2`, ..., `pos + 2(n - 1)` do not end it and the title at `pos + 2n` does.
   */
  lemma QueriesStopAtFirstBlank(lines: seq<string>, pos: nat, n: nat)
    ensures |Queries(lines, pos)| == n <==>
      (forall k :: 0 <= k < n ==> !StopsAt(lines, pos + 2 * k)) && StopsAt(lines, pos + 2 * n)
  {
    QueriesAt(lines, pos);
    QueriesEndAtStop(lines, pos);
  }

  /** No input handed to the prediction engine has a null or blank title, and none has a fixer. */
  lemma {:induction false} QueriesNeverBlank(lines: seq<string>, pos: nat)
    ensures forall q :: q in Queries(lines, pos) ==> !IsNullOrWhiteSpace(q.title) && q.title.Some? && q.fixer == None
    decreases |lines| - pos
  {
    if !StopsAt(lines, pos) {
      QueriesNeverBlank(lines, pos + 2);
    }
  }

  /**
   * Lines after the one that ends the loop are never read: appending input after it
   * does not change the queries.
   */
  lemma {:induction false} InputAfterStopIgnored(lines: seq<string>, extra: seq<string>, pos: nat)
    requires pos + 2 * |Queries(lines, pos)| < |lines|
    ensures Queries(lines + extra, pos) == Queries(lines, pos)
    decreases |lines| - pos
  {
    assert ReadLine(lines + extra, pos) == ReadLine(lines, pos);
    if !StopsAt(lines, pos) {
      assert ReadLine(lines + extra, pos + 1) == ReadLine(lines, pos + 1);
      InputAfterStopIgnored(lines, extra, pos + 2);
    }
  }
}
