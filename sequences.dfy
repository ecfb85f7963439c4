/** Regrouping of sequence concatenation, shared by the proofs about strings and logs. */
module Sequences {

  lemma Assoc<T>(a: seq<T>, b: seq<T>, c: seq<T>)
    ensures a + (b + c) == a + b + c
  {
  }

  lemma AppendEmpty<T>(s: seq<T>)
    ensures s + [] == s
  {
  }

  lemma EmptyAppend<T>(s: seq<T>)
    ensures [] + s == s
  {
  }

  /** Three appends in a row to `start` add the three parts joined. */
  lemma Chain<T>(start: seq<T>, a: seq<T>, b: seq<T>, c: seq<T>, l1: seq<T>, l2: seq<T>, l3: seq<T>)
    requires l1 == start + a && l2 == l1 + b && l3 == l2 + c
    ensures l3 == start + (a + b + c)
  {
    Assoc(start, a + b, c);
    Assoc(start, a, b);
  }

  lemma Regroup<T>(a: seq<T>, b: seq<T>, c: seq<T>, d: seq<T>, e: seq<T>)
    ensures a + (b + c) + d + e == a + b + (c + d + e)
  {
  }

  lemma Regroup5<T>(a: seq<T>, b: seq<T>, c: seq<T>, d: seq<T>, e: seq<T>, f: seq<T>)
    ensures a + b + c + d + e + f == a + (b + (c + d) + e + f)
  {
  }
}
