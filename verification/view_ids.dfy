/** `VideoPlayer.generateId`: view ids handed out by a static counter that
    starts at 10000 and wraps to 1 past 0x00FFFFFF. */
module ViewIds {

  const FIRST_ID: int := 10000
  const MAX_ID: int := 0x00FF_FFFF

  /** The counter value after handing out `current`. */
  function NextId(current: int): (next: int)
    ensures current >= 0 ==> 1 <= next <= MAX_ID
    ensures next == 1 || next == current + 1
    ensures current < MAX_ID ==> next == current + 1
  {
    if current + 1 > MAX_ID then 1 else current + 1
  }

  /** The id handed out by the `k`-th call (counting from 0) on a counter holding `start`. */
  function IdAfter(start: int, k: nat): int
  {
    if k == 0 then start else NextId(IdAfter(start, k - 1))
  }

  /** The counter behind `sNextGeneratedId`; the compare-and-set retry loop of
      the source succeeds on its first round when calls are sequential. */
  class IdGenerator {
    var nextGeneratedId: int

    ghost predicate Valid()
      reads this
    {
      1 <= nextGeneratedId <= MAX_ID
    }

    constructor ()
      ensures Valid() && nextGeneratedId == FIRST_ID
    {
      nextGeneratedId := FIRST_ID;
    }

    method GenerateId() returns (id: int)
      requires Valid()
      modifies this
      ensures Valid()
      ensures id == old(nextGeneratedId) && nextGeneratedId == NextId(id)
    {
      id := nextGeneratedId;
      var newValue := id + 1;
      if newValue > MAX_ID {
        newValue := 1;
      }
      nextGeneratedId := newValue;
    }
  }

  /** One more step around the cycle of MAX_ID residues. */
  lemma RotateStep(x: nat, y: nat)
    requires y == x + 1
    ensures y % MAX_ID == if x % MAX_ID + 1 < MAX_ID then x % MAX_ID + 1 else 0
  {
    var q, r := x / MAX_ID, x % MAX_ID;
    assert y == q * MAX_ID + (r + 1);
    if r + 1 == MAX_ID {
      assert y == (q + 1) * MAX_ID;
    }
  }

  /** The ids cycle through 1..MAX_ID: the `k`-th id is a rotation of `start`. */
  lemma {:induction false} IdAfterClosedForm(start: int, k: nat)
    requires 1 <= start <= MAX_ID
    ensures IdAfter(start, k) == (start - 1 + k) % MAX_ID + 1
  {
    if k == 0 {
      assert (start - 1 + k) % MAX_ID == start - 1;
    } else {
      IdAfterClosedForm(start, k - 1);
      RotateStep(start - 1 + (k - 1), start - 1 + k);
    }
  }

  /** Fewer than MAX_ID consecutive calls never hand out the same id twice. */
  lemma IdsDistinct(start: int, i: nat, j: nat)
    requires 1 <= start <= MAX_ID
    requires i < j < MAX_ID
    ensures IdAfter(start, i) != IdAfter(start, j)
  {
    IdAfterClosedForm(start, i);
    IdAfterClosedForm(start, j);
  }

  /** The static initialisers: `SF_VIEW_ID` and then `PLAY_BTN_ID` take the
      first two ids, 10000 and 10001, so the click handler can tell the
      surface from the play button. */
  method StaticViewIds() returns (sfViewId: int, playBtnId: int)
    ensures sfViewId == FIRST_ID && playBtnId == FIRST_ID + 1
    ensures sfViewId != playBtnId
  {
    var counter := new IdGenerator();
    sfViewId := counter.GenerateId();
    playBtnId := counter.GenerateId();
  }
}
