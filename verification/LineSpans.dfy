/** The changed span of two texts: what lies between their common prefix and their common suffix of lines. */
module LineSpans {
  import opened Options

  /** The lines outside the longest common prefix and, after it, the longest common suffix. */
  ghost predicate IsSpan(before: seq<string>, after: seq<string>, prefix: nat, suffix: nat) {
    && prefix + suffix <= |before| && prefix + suffix <= |after|
    && before[..prefix] == after[..prefix]
    && before[|before| - suffix..] == after[|after| - suffix..]
    && (prefix < |before| && prefix < |after| ==> before[prefix] != after[prefix])
    && (prefix + suffix < |before| && prefix + suffix < |after| ==>
          before[|before| - 1 - suffix] != after[|after| - 1 - suffix])
  }

  method CommonPrefix(before: seq<string>, after: seq<string>) returns (prefix: nat)
    ensures prefix <= |before| && prefix <= |after|
    ensures before[..prefix] == after[..prefix]
    ensures prefix < |before| && prefix < |after| ==> before[prefix] != after[prefix]
  {
    var limit := Min(|before|, |after|);
    prefix := 0;
    while prefix < limit && before[prefix] == after[prefix]
      invariant prefix <= limit
      invariant forall i :: 0 <= i < prefix ==> before[i] == after[i]
    {
      prefix := prefix + 1;
    }
  }

  method CommonSuffix(before: seq<string>, after: seq<string>, limit: nat) returns (suffix: nat)
    requires limit <= |before| && limit <= |after|
    ensures suffix <= limit
    ensures before[|before| - suffix..] == after[|after| - suffix..]
    ensures suffix < limit ==> before[|before| - 1 - suffix] != after[|after| - 1 - suffix]
  {
    suffix := 0;
    while suffix < limit && before[|before| - 1 - suffix] == after[|after| - 1 - suffix]
      invariant suffix <= limit
      invariant before[|before| - suffix..] == after[|after| - suffix..]
    {
      var b, a := |before| - 1 - suffix, |after| - 1 - suffix;
      assert before[b..] == [before[b]] + before[b + 1..];
      assert after[a..] == [after[a]] + after[a + 1..];
      suffix := suffix + 1;
    }
  }
}
