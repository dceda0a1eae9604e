/** `Solution.twoSum`: one pass over the numbers with a dictionary from each
    value seen so far to the last position it was seen at. */
module TwoSum {
  import opened Base

  /** Some earlier position holds the partner of the number at `i`. */
  predicate HasPartnerBefore(nums: seq<int>, target: int, i: int)
    requires 0 <= i < |nums|
  {
    exists j :: 0 <= j < i && nums[i] + nums[j] == target
  }

  /** No two positions below `n` add up to the target. */
  predicate NoPairBelow(nums: seq<int>, target: int, n: int)
    requires 0 <= n <= |nums|
  {
    forall a :: 0 <= a < n ==> !HasPartnerBefore(nums, target, a)
  }

  /** `cache` as the loop keeps it after reading `nums[..i]`: it holds every
      value read so far, mapped to the last position holding it. */
  ghost predicate LastPositions(nums: seq<int>, i: int, cache: map<int, nat>)
    requires 0 <= i <= |nums|
  {
    && (forall v :: v in cache <==> v in nums[..i])
    && (forall v :: v in cache ==>
          && cache[v] < i
          && nums[cache[v]] == v
          && (forall k :: cache[v] < k < i ==> nums[k] != v))
  }

  /** The answer is `(i, j)`, the later position first: `i` is the first
      position whose partner occurs before it, and `j` the last position
      before `i` holding that partner. When no two positions add up to the
      target the loop runs out and the method yields `None`. */
  method TwoSum(nums: seq<int>, target: int) returns (r: Option<(nat, nat)>)
    ensures r.Some? ==>
      var (i, j) := r.value;
      && j < i < |nums|
      && nums[i] + nums[j] == target
      && NoPairBelow(nums, target, i)
      && (forall k :: j < k < i ==> nums[k] + nums[i] != target)
    ensures r.None? <==> NoPairBelow(nums, target, |nums|)
  {
    var cache: map<int, nat> := map[];
    for i := 0 to |nums|
      invariant LastPositions(nums, i, cache)
      invariant NoPairBelow(nums, target, i)
    {
      var rem := target - nums[i];
      if rem in cache {
        var j := cache[rem];
        assert HasPartnerBefore(nums, target, i);
        return Some((i, j));
      }
      assert !HasPartnerBefore(nums, target, i) by {
        forall j | 0 <= j < i
          ensures nums[i] + nums[j] != target
        {
          assert nums[j] in nums[..i];
        }
      }
      assert nums[..i + 1] == nums[..i] + [nums[i]];
      cache := cache[nums[i] := i];
    }
    return None;
  }

  /** The demonstration call: `[2, 7, 11, 15]` with target 9 gives `(1, 0)`. */
  method Demo() returns (r: Option<(nat, nat)>)
    ensures r == Some((1, 0))
  {
    var nums := [2, 7, 11, 15];
    r := TwoSum(nums, 9);
    assert HasPartnerBefore(nums, 9, 1) by {
      assert nums[1] + nums[0] == 9;
    }
    var (i, j) := r.value;
    assert i <= 1;
  }
}
