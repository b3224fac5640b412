/** Small shared vocabulary: optional values and addresses. */
module Common {

  datatype Option<+T> = None | Some(value: T)

  /** A machine address, or 0 for a null pointer. The rules only compare addresses. */
  type Address = nat

  predicate StrictlyIncreasing(s: seq<nat>) {
    forall i, j | 0 <= i < j < |s| :: s[i] < s[j]
  }
}
