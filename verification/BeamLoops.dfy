/** The search as the kernel runs it: suffix tables filled backwards, then nested loops over lines, states and options. */
module BeamLoops {
  import opened RealMath
  import opened Sorting
  import opened BeamSearch
  import opened BeamOptimality

  lemma SuffixStep(lines: seq<Line>, k: nat)
    requires HasOptions(lines) && k < |lines|
    ensures SuffixMinNet(lines, k) == SuffixMinNet(lines, k + 1) + MinReal(OptionWeights(lines[k]))
    ensures SuffixMaxNet(lines, k) == SuffixMaxNet(lines, k + 1) + MaxReal(OptionWeights(lines[k]))
    ensures SuffixMinError(lines, k) == SuffixMinError(lines, k + 1) + MinReal(OptionErrors(lines[k]))
  {}

  /** The three suffix tables, filled from the last line to the first. */
  method SuffixTables(lines: seq<Line>) returns (minNet: seq<real>, maxNet: seq<real>, minError: seq<real>)
    requires HasOptions(lines)
    ensures |minNet| == |maxNet| == |minError| == |lines| + 1
    ensures forall k :: 0 <= k <= |lines| ==> minNet[k] == SuffixMinNet(lines, k)
    ensures forall k :: 0 <= k <= |lines| ==> maxNet[k] == SuffixMaxNet(lines, k)
    ensures forall k :: 0 <= k <= |lines| ==> minError[k] == SuffixMinError(lines, k)
  {
    var n := |lines|;
    minNet, maxNet, minError := seq(n + 1, i => 0.0), seq(n + 1, i => 0.0), seq(n + 1, i => 0.0);
    for k := n downto 0
      invariant |minNet| == |maxNet| == |minError| == n + 1
      invariant forall i :: k <= i <= n ==> minNet[i] == SuffixMinNet(lines, i)
      invariant forall i :: k <= i <= n ==> maxNet[i] == SuffixMaxNet(lines, i)
      invariant forall i :: k <= i <= n ==> minError[i] == SuffixMinError(lines, i)
    {
      var weights, errors := OptionWeights(lines[k]), OptionErrors(lines[k]);
      var low, high, least := minNet[k + 1] + MinReal(weights), maxNet[k + 1] + MaxReal(weights), minError[k + 1] + MinReal(errors);
      SuffixStep(lines, k);
      minNet, maxNet, minError := minNet[k := low], maxNet[k := high], minError[k := least];
    }
  }

  /** One line of the search: every state meets every option, prunes, and is bounded. */
  method ExpandStates(lines: seq<Line>, k: nat, states: seq<State>, minNet: real, maxNet: real, minError: real)
    returns (expanded: seq<Node>)
    requires k < |lines| && HasOptions(lines)
    requires minNet == SuffixMinNet(lines, k + 1) && maxNet == SuffixMaxNet(lines, k + 1)
    requires minError == SuffixMinError(lines, k + 1)
    ensures expanded == Expand(lines, k, states)
  {
    expanded := [];
    var options := lines[k].options;
    for i := 0 to |states|
      invariant expanded == Expand(lines, k, states[..i])
    {
      var st := states[i];
      for j := 0 to |options|
        invariant expanded == Expand(lines, k, states[..i]) + Children(lines, k, st, options[..j])
      {
        assert options[..j + 1][..j] == options[..j];
        var next := Grow(lines[k], st, options[j]);
        if PassesCaps(lines[k], next) {
          var bound := BoundFrom(next.sse, minError, next.net, minNet, maxNet);
          expanded := expanded + [Node(bound, next)];
        }
      }
      assert options[..|options|] == options;
      assert states[..i + 1][..i] == states[..i];
    }
    assert states[..|states|] == states;
  }

  /** The whole search; it always reaches the last line. */
  method SearchBeam(lines: seq<Line>, sectors: nat, width: nat) returns (states: seq<State>)
    requires WellFormed(lines, sectors) && HasOptions(lines) && width > 0
    ensures states == Layer(lines, sectors, width, |lines|)
  {
    var minNet, maxNet, minError := SuffixTables(lines);
    states := [Initial(sectors)];
    for k := 0 to |lines|
      invariant states == Layer(lines, sectors, width, k)
    {
      var expanded := ExpandStates(lines, k, states, minNet[k + 1], maxNet[k + 1], minError[k + 1]);
      NeverDeadEnds(lines, sectors, width, k);
      if expanded == [] {
        break;
      }
      expanded := SortBy(expanded, NodeLeq);
      states := Kept(expanded, width);
    }
  }
}
