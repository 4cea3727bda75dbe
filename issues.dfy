/**
 * The records the program reads and the rows it trains on:
 * `Issue` (IssueList.cs) and `Program.Input`, and the projection
 * `issues.Select(i => new Input { ... })` at the top of `Main`.
 */
module Issues {
  import opened Wrappers

  /** One row of issues.csv, as the CSV reader yields it. */
  datatype Issue = Issue(
    title: string,
    description: string,
    status: string,
    fixerName: string,
    fixerEmail: string)

  /**
   * `Program.Input`: the row type of training data and of prediction queries.
   * Its fields are C# strings, which may be null; a fresh `new Input()` has all three null.
   */
  datatype Input = Input(title: Option<string>, description: Option<string>, fixer: Option<string>)

  /** The fields of an issue that the projection keeps. */
  predicate SameKeptFields(a: Issue, b: Issue)
  {
    a.title == b.title && a.description == b.description && a.fixerName == b.fixerName
  }

  /** The lambda of the projection: title and description copied, the fixer's name becomes the label. */
  function ToInput(i: Issue): Input
  {
    Input(Some(i.title), Some(i.description), Some(i.fixerName))
  }

  /**
   * The projection of `Main`: one training input per issue, in the same order;
   * status and e-mail address are dropped.
   */
  function ToInputs(issues: seq<Issue>): (r: seq<Input>)
    ensures |r| == |issues|
    ensures forall k :: 0 <= k < |r| ==>
      && r[k].title == Some(issues[k].title)
      && r[k].description == Some(issues[k].description)
      && r[k].fixer == Some(issues[k].fixerName)
  {
    if issues == [] then [] else [ToInput(issues[0])] + ToInputs(issues[1..])
  }

  /** The projection works row by row: projecting a concatenation concatenates the projections. */
  lemma {:induction false} ToInputsAppend(a: seq<Issue>, b: seq<Issue>)
    ensures ToInputs(a + b) == ToInputs(a) + ToInputs(b)
  {
    if a == [] {
      assert a + b == b;
    } else {
      assert (a + b)[1..] == a[1..] + b;
      ToInputsAppend(a[1..], b);
    }
  }

  /**
   * Two issue lists project to the same training data exactly when they agree, row by row,
   * on title, description and fixer name: status and e-mail address never reach training.
   */
  lemma {:induction false} ToInputsDropsStatusAndEmail(a: seq<Issue>, b: seq<Issue>)
    ensures ToInputs(a) == ToInputs(b) <==>
      |a| == |b| && forall k :: 0 <= k < |a| ==> SameKeptFields(a[k], b[k])
  {
    var ra, rb := ToInputs(a), ToInputs(b);
    if ra == rb {
      forall k | 0 <= k < |a|
        ensures SameKeptFields(a[k], b[k])
      {
        assert ra[k] == rb[k];
      }
    }
    if |a| == |b| && forall k :: 0 <= k < |a| ==> SameKeptFields(a[k], b[k]) {
      forall k | 0 <= k < |ra|
        ensures ra[k] == rb[k]
      {
        assert SameKeptFields(a[k], b[k]);
      }
    }
  }
}
