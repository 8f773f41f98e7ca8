/** common/array: membership search over a Go slice. */
module Array {

  /**
   * `ItemExists` scans the slice from index 0 upwards and stops at the
   * first element equal to `item`. The slice is only read (no `modifies`).
   */
  method ItemExists<T(==)>(arr: array<T>, item: T) returns (found: bool)
    ensures found <==> exists i :: 0 <= i < arr.Length && arr[i] == item
  {
    for i := 0 to arr.Length
      invariant forall j :: 0 <= j < i ==> arr[j] != item
    {
      if arr[i] == item {
        return true;
      }
    }
    return false;
  }
}
