/** Walking an ordered set of tokens upwards. */
module Least {
  lemma SomeMember(s: set<int>)
    ensures s == {} || exists y :: y in s
  {
    if forall y :: y !in s {
      assert s == {};
    }
  }

  lemma {:induction false} LeastExists(s: set<int>)
    requires s != {}
    ensures exists m :: m in s && forall y :: y in s ==> m <= y
  {
    SomeMember(s);
    var x :| x in s;
    var less := s - {x};
    if less == {} {
      assert forall y :: y in s ==> y == x || y in less;
    } else {
      LeastExists(less);
      var m :| m in less && forall y :: y in less ==> m <= y;
      var least := if x < m then x else m;
      assert forall y :: y in s ==> y == x || y in less;
      assert least in s && forall y :: y in s ==> least <= y;
    }
  }

  method LeastToken(rest: set<int>) returns (x: int)
    requires rest != {}
    ensures x in rest && forall y :: y in rest ==> x <= y
  {
    LeastExists(rest);
    x :| x in rest && forall y :: y in rest ==> x <= y;
  }
}
