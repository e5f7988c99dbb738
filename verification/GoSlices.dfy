/** Go slices: a header (backing array and length) over an array whose tail beyond the length is spare
    capacity. Growing in place writes into that tail, which another header may share. */
module GoSlices {

  datatype Slice<T> = Slice(arr: array<T>, len: nat) {
    predicate Fits() { len <= arr.Length }
  }

  /** The visible contents. */
  ghost function View<T>(s: Slice<T>): seq<T>
    requires s.Fits()
    reads s.arr
  {
    s.arr[..s.len]
  }

  /** The nil slice. */
  method Nil<T>() returns (r: Slice<T>)
    ensures r.Fits() && fresh(r.arr) && View(r) == []
  {
    var none := new T[0];
    r := Slice(none, 0);
  }

  /** The runtime's choice of a new capacity; callers may rely on nothing but its being large enough. */
  method Grow(need: nat) returns (cap: nat)
    ensures cap >= need
  {
    cap := 2 * need;
  }

  /** append(s, xs...): in place when the capacity allows, otherwise into a fresh array with some spare
      capacity. Either way what s itself shows is unchanged. Spare slots of a fresh array are filled
      with some element here; they are outside every view. */
  method Append<T>(s: Slice<T>, xs: seq<T>) returns (r: Slice<T>)
    requires s.Fits()
    modifies s.arr
    ensures r.Fits() && View(r) == old(View(s)) + xs && View(s) == old(View(s))
    ensures if s.len + |xs| <= s.arr.Length then r.arr == s.arr else fresh(r.arr)
  {
    if s.len + |xs| <= s.arr.Length {
      forall j | 0 <= j < |xs| {
        s.arr[s.len + j] := xs[j];
      }
      r := Slice(s.arr, s.len + |xs|);
    } else {
      var all := s.arr[..s.len] + xs;
      var cap := Grow(|all|);
      var bigger := new T[cap](i requires 0 <= i < cap => if i < |all| then all[i] else xs[0]);
      r := Slice(bigger, |all|);
      assert View(r) == all;
    }
  }
}
