/** The string orders as the total orders that sorting expects. */
module Orders {
  import opened Sorting
  import Strings

  lemma StringPreorder()
    ensures Preorder(Strings.Leq)
  {
    forall x, y
      ensures Strings.Leq(x, y) || Strings.Leq(y, x)
    {
      Strings.Trichotomy(x, y);
    }
    forall x, y, z | Strings.Leq(x, y) && Strings.Leq(y, z)
      ensures Strings.Leq(x, z)
    {
      Strings.LeqTransitive(x, y, z);
    }
  }

  lemma StringAntisymmetric(s: seq<string>)
    ensures Antisymmetric(Strings.Leq, s)
  {
    forall x, y | x in s && y in s && Strings.Leq(x, y) && Strings.Leq(y, x)
      ensures x == y
    {
      Strings.Trichotomy(x, y);
    }
  }

  lemma ListPreorder()
    ensures Preorder(Strings.ListLeq)
  {
    forall x, y
      ensures Strings.ListLeq(x, y) || Strings.ListLeq(y, x)
    {
      Strings.ListTrichotomy(x, y);
    }
    forall x, y, z | Strings.ListLeq(x, y) && Strings.ListLeq(y, z)
      ensures Strings.ListLeq(x, z)
    {
      Strings.ListLeqTransitive(x, y, z);
    }
  }

  lemma ListAntisymmetric(s: seq<seq<string>>)
    ensures Antisymmetric(Strings.ListLeq, s)
  {
    forall x, y | x in s && y in s && Strings.ListLeq(x, y) && Strings.ListLeq(y, x)
      ensures x == y
    {
      Strings.ListTrichotomy(x, y);
    }
  }
}
