/** The photo viewer shared by the detail pages: the photo list being shown
    (or none) and the position in it, changed by opening, closing, stepping
    back and forth, and by the Escape and arrow keys. */
module Lightbox {
  import opened Values

  /** JavaScript's `%`: the remainder truncated toward zero, so it takes the
      sign of the dividend. */
  function JsRem(a: int, n: int): (r: int)
    requires n > 0
    ensures a >= 0 ==> 0 <= r < n
    ensures a < 0 ==> -n < r <= 0
    ensures (a - r) % n == 0
  {
    if a >= 0 then
      assert a - a % n == n * (a / n);
      MulMod(n, a / n);
      a % n
    else
      assert a + (-a) % n == n * -((-a) / n);
      MulMod(n, -((-a) / n));
      -((-a) % n)
  }

  /** A multiple of `n` leaves no remainder. */
  lemma MulMod(n: int, q: int)
    requires n > 0
    ensures (n * q) % n == 0
  {
    var m := n * q;
    var d := q - m / n;
    assert n * d == m % n by {
      assert m == n * (m / n) + m % n;
      assert n * d == n * q - n * (m / n);
    }
    if d >= 1 {
      MulMono(n, d, 1);
    } else if d <= -1 {
      MulMono(n, -1, d);
    }
  }

  /** The position `showNext` moves to: `(i + 1) % n`. */
  function NextIndex(i: int, n: int): int
    requires n > 0
  {
    JsRem(i + 1, n)
  }

  /** The position `showPrev` moves to: `(i - 1 + n) % n`. */
  function PrevIndex(i: int, n: int): int
    requires n > 0
  {
    JsRem(i - 1 + n, n)
  }

  /** From a position inside the list, both steps stay inside it, wrapping
      from the last photo to the first and from the first to the last. */
  lemma StepsStayInRange(i: int, n: int)
    requires 0 <= i < n
    ensures NextIndex(i, n) == if i == n - 1 then 0 else i + 1
    ensures PrevIndex(i, n) == if i == 0 then n - 1 else i - 1
  {
    if i == n - 1 {
      ModSelf(n);
    } else {
      ModOfSmall(i + 1, n);
    }
    if i == 0 {
      ModOfSmall(n - 1, n);
    } else {
      ModAddN(i - 1, n);
    }
  }

  lemma ModOfSmall(x: int, n: int)
    requires 0 <= x < n
    ensures x % n == x
  {
  }

  lemma ModSelf(n: int)
    requires n > 0
    ensures n % n == 0
  {
  }

  lemma MulMono(n: int, q: int, c: int)
    requires n > 0 && q >= c
    ensures n * q >= n * c
  {
    assert n * q == n * c + n * (q - c);
  }

  lemma ModAddN(x: int, n: int)
    requires 0 <= x < n
    ensures (x + n) % n == x
  {
    var y := x + n;
    var q := y / n;
    assert y == n * q + y % n;
    if q <= 0 {
      MulMono(n, 0, q);
    } else if q >= 2 {
      MulMono(n, q, 2);
    }
    assert q == 1;
  }

  /** Stepping forward then back, or back then forward, returns to the same
      photo. */
  lemma PrevUndoesNext(i: int, n: int)
    requires 0 <= i < n
    ensures PrevIndex(NextIndex(i, n), n) == i
    ensures NextIndex(PrevIndex(i, n), n) == i
  {
    StepsStayInRange(i, n);
    StepsStayInRange(NextIndex(i, n), n);
    StepsStayInRange(PrevIndex(i, n), n);
  }

  /** The position after `k` calls of `showNext`. */
  function NextTimes(i: int, n: int, k: nat): int
    requires n > 0
  {
    if k == 0 then i else NextIndex(NextTimes(i, n, k - 1), n)
  }

  /** `a` steps and then `b` more are `a + b` steps. */
  lemma {:induction false} NextTimesAdd(i: int, n: int, a: nat, b: nat)
    requires n > 0
    ensures NextTimes(i, n, a + b) == NextTimes(NextTimes(i, n, a), n, b)
  {
    if b > 0 {
      NextTimesAdd(i, n, a, b - 1);
    }
  }

  /** Short of the end of the list, `k` steps forward move `k` places. */
  lemma {:induction false} NextTimesClimb(i: int, n: int, k: nat)
    requires 0 <= i && i + k < n
    ensures NextTimes(i, n, k) == i + k
  {
    if k > 0 {
      NextTimesClimb(i, n, k - 1);
      StepsStayInRange(i + k - 1, n);
    }
  }

  /** `n` steps forward go once around the list and back to the start. */
  lemma NextAroundList(i: int, n: int)
    requires 0 <= i < n
    ensures NextTimes(i, n, n) == i
  {
    NextTimesAdd(i, n, n - 1 - i, 1);
    NextTimesClimb(i, n, n - 1 - i);
    StepsStayInRange(n - 1, n);
    assert NextTimes(i, n, n - i) == 0;
    NextTimesAdd(i, n, n - i, i);
    NextTimesClimb(0, n, i);
  }

  /** A position past the end, which `openLightbox` allows, or -1 is brought
      back into the list by one step forward. From a position below -1 the step
      lands at 0 when `i + 1` is a multiple of `n` (JavaScript's `-0`, which
      indexes like 0) and otherwise at a negative position, outside the list,
      because the remainder keeps the dividend's sign. */
  lemma NextFromOutside(i: int, n: int)
    requires n > 0
    ensures i >= -1 ==> 0 <= NextIndex(i, n) < n
    ensures i < -1 ==> -n < NextIndex(i, n) <= 0
    ensures i < -1 ==> (NextIndex(i, n) == 0 <==> (i + 1) % n == 0)
  {
    if i < -1 {
      var a := i + 1;
      if a % n == 0 {
        assert -a == n * -(a / n) by {
          assert a == n * (a / n) + a % n;
        }
        MulMod(n, -(a / n));
      } else {
        assert (-a) % n != 0 by {
          if (-a) % n == 0 {
            assert a == n * -((-a) / n) by {
              assert -a == n * ((-a) / n) + (-a) % n;
            }
            MulMod(n, -((-a) / n));
          }
        }
      }
    }
  }

  /** The keys the viewer listens to. */
  function IsHandledKey(key: string): bool {
    key == "Escape" || key == "ArrowLeft" || key == "ArrowRight"
  }

  /** `index + 1 / photos.length` under the photo, or nothing when the viewer
      is not drawn. */
  function Counter(photos: Option<seq<string>>, index: int): (r: Option<(int, int)>)
    ensures r.None? <==> photos.None? || photos.value == []
    ensures r.Some? ==> r.value == (index + 1, |photos.value|)
  {
    if photos.None? || photos.value == [] then None else Some((index + 1, |photos.value|))
  }

  /** With the position inside the list the counter reads from 1 to the
      number of photos. */
  lemma CounterInRange(photos: seq<string>, index: int)
    requires 0 <= index < |photos|
    ensures var c := Counter(Some(photos), index);
            c.Some? && 1 <= c.value.0 <= c.value.1 == |photos|
  {
  }

  /** The `LightboxProvider` state: `photos` is `null` or a non-empty list,
      and `index` is whatever was last set. */
  class Viewer {
    var photos: Option<seq<string>>
    var index: int

    predicate Valid()
      reads this
    {
      photos.Some? ==> |photos.value| > 0
    }

    constructor ()
      ensures Valid() && photos == None && index == 0
    {
      photos := None;
      index := 0;
    }

    /** `openLightbox(i, list)`: ignored for an absent, non-array or empty
      list; otherwise shows `list` at position `i`, unchecked. */
    method Open(i: int, list: Raw<string>)
      requires Valid()
      modifies this
      ensures Valid()
      ensures !(list.Arr? && |list.items| > 0) ==> photos == old(photos) && index == old(index)
      ensures list.Arr? && |list.items| > 0 ==> photos == Some(list.items) && index == i
    {
      if !list.Arr? || |list.items| == 0 {
        return;
      }
      photos := Some(list.items);
      index := i;
    }

    /** `closeLightbox()`: hides the viewer and keeps the position. */
    method Close()
      requires Valid()
      modifies this
      ensures Valid() && photos == None && index == old(index)
    {
      photos := None;
    }

    /** `showPrev()`: one photo back, wrapping; nothing while hidden. */
    method ShowPrev()
      requires Valid()
      modifies this
      ensures Valid() && photos == old(photos)
      ensures photos.None? ==> index == old(index)
      ensures photos.Some? ==> index == PrevIndex(old(index), |photos.value|)
    {
      if photos.None? {
        return;
      }
      index := JsRem(index - 1 + |photos.value|, |photos.value|);
    }

    /** `showNext()`: one photo forward, wrapping; nothing while hidden. */
    method ShowNext()
      requires Valid()
      modifies this
      ensures Valid() && photos == old(photos)
      ensures photos.None? ==> index == old(index)
      ensures photos.Some? ==> index == NextIndex(old(index), |photos.value|)
    {
      if photos.None? {
        return;
      }
      index := JsRem(index + 1, |photos.value|);
    }

    /** The `keydown` listener, installed only while photos are shown:
        Escape closes, ArrowLeft steps back, ArrowRight steps forward, and
        any other key changes nothing. */
    method OnKey(key: string)
      requires Valid()
      modifies this
      ensures Valid()
      ensures old(photos).None? || !IsHandledKey(key) ==> photos == old(photos) && index == old(index)
      ensures old(photos).Some? && key == "Escape" ==> photos == None && index == old(index)
      ensures old(photos).Some? && key == "ArrowLeft" ==>
                photos == old(photos) && index == PrevIndex(old(index), |old(photos).value|)
      ensures old(photos).Some? && key == "ArrowRight" ==>
                photos == old(photos) && index == NextIndex(old(index), |old(photos).value|)
    {
      if photos.None? {
        return;
      }
      if key == "Escape" {
        Close();
      }
      if key == "ArrowLeft" {
        ShowPrev();
      }
      if key == "ArrowRight" {
        ShowNext();
      }
    }
  }
}
