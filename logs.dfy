/**
 * Ghost event logs grow by appending the events of one phase after
 * another. Regrouping those appends is plain associativity, stated once
 * here so that the methods that extend a log need not rediscover it.
 */
module Logs {

  lemma AppendTwo<T>(l: seq<T>, a: seq<T>, b: seq<T>)
    ensures l + a + b == l + (a + b)
  {
  }

  lemma AppendAssoc<T>(l: seq<T>, a: seq<T>, b: seq<T>, c: seq<T>)
    ensures l + a + b + c == l + (a + b + c)
  {
  }
}
