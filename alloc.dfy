/** Heap growth as the shell does it with realloc. Allocation failure is not modelled. */
module Alloc {

  /** realloc(a, size) for size >= |a|: a fresh block of the new size whose first
      a.Length cells hold the old contents. */
  method Realloc<T(0)>(a: array<T>, size: nat) returns (b: array<T>)
    requires a.Length <= size
    ensures fresh(b) && b.Length == size
    ensures forall i :: 0 <= i < a.Length ==> b[i] == a[i]
  {
    b := new T[size];
    forall i | 0 <= i < a.Length {
      b[i] := a[i];
    }
  }

  /** buf[n] = x; n++; and, if n has reached the size, grow by step with realloc: the
      store-then-grow step of both of the shell's growing buffers. */
  method StoreAndGrow<T(0)>(a: array<T>, n: nat, x: T, step: nat) returns (b: array<T>)
    requires n < a.Length
    modifies a
    ensures b.Length == if n + 1 >= a.Length then a.Length + step else a.Length
    ensures b == a || fresh(b)
    ensures forall i :: 0 <= i < n ==> b[i] == old(a[i])
    ensures b[n] == x
  {
    a[n] := x;
    b := a;
    if n + 1 >= a.Length {
      b := Realloc(a, a.Length + step);
    }
  }
}
