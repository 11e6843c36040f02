/**
 * The early-return searches of bot.py (`__getitem__`, `is_playing`, `get_state`) as
 * functions on member ids, and Python's `list.pop` index rule.
 */
module Search {
  import opened Wrappers

  /** The first position holding `id`, or `None` when `id` does not occur. */
  function IndexOf(ids: seq<int>, id: int): (r: Option<nat>)
    ensures r.None? <==> id !in ids
    ensures r.Some? ==> r.value < |ids| && ids[r.value] == id && id !in ids[..r.value]
    decreases |ids|
  {
    if ids == [] then None
    else if ids[0] == id then Some(0)
    else match IndexOf(ids[1..], id)
      case None => None
      case Some(i) => Some(i + 1)
  }

  /** The first roster (list of member ids) that contains `id`, or `None` when none does. */
  function FirstWith(rosters: seq<seq<int>>, id: int): (r: Option<nat>)
    ensures r.None? <==> forall k :: 0 <= k < |rosters| ==> id !in rosters[k]
    ensures r.Some? ==> r.value < |rosters| && id in rosters[r.value]
    ensures r.Some? ==> forall k :: 0 <= k < r.value ==> id !in rosters[k]
    decreases |rosters|
  {
    if rosters == [] then None
    else if id in rosters[0] then Some(0)
    else match FirstWith(rosters[1..], id)
      case None => None
      case Some(k) => Some(k + 1)
  }

  /**
   * Appending a roster never changes an existing answer; an id found nowhere before
   * is found in the appended roster exactly when that roster contains it.
   */
  lemma {:induction false} FirstWithAppend(rosters: seq<seq<int>>, roster: seq<int>, id: int)
    ensures FirstWith(rosters, id).Some? ==> FirstWith(rosters + [roster], id) == FirstWith(rosters, id)
    ensures FirstWith(rosters, id).None? ==>
      FirstWith(rosters + [roster], id) == (if id in roster then Some(|rosters|) else None)
    decreases |rosters|
  {
    if rosters != [] {
      assert (rosters + [roster])[1..] == rosters[1..] + [roster];
      FirstWithAppend(rosters[1..], roster, id);
    }
  }

  /**
   * The `list.pop(idx)` index rule: indices `0..n-1` count from the front, `-n..-1`
   * from the back, and any other index raises `IndexError` (`None`).
   */
  function PopIndex(n: nat, idx: int): (r: Option<nat>)
    ensures r.Some? <==> 0 <= idx + n && idx < n
    ensures r.Some? ==> r.value < n && r.value % n == idx % n
  {
    if 0 <= idx < n then Some(idx)
    else if 0 <= idx + n && idx < 0 then Some(idx + n)
    else None
  }

  /**
   * A 1-based hand position `pos` of the play command removes card `pos - 1` when
   * `1 <= pos <= n`; position 0 removes the last card and a position above `n` fails.
   */
  lemma PositionSelectsCard(n: nat, pos: int)
    ensures 1 <= pos <= n ==> PopIndex(n, pos - 1) == Some(pos - 1)
    ensures n > 0 && pos == 0 ==> PopIndex(n, pos - 1) == Some(n - 1)
    ensures pos > n ==> PopIndex(n, pos - 1).None?
  {
  }
}
