/** Facts about the sets that loops use up element by element. */
module Sets {

  lemma NoneTaken<T>(all: set<T>)
    ensures all - all == {}
  {
  }

  lemma OneTaken<T>(all: set<T>, rest: set<T>, x: T)
    requires rest <= all && x in rest
    ensures all - (rest - {x}) == all - rest + {x} && x !in all - rest
  {
  }

  lemma AllTaken<T>(all: set<T>, rest: set<T>)
    requires rest == {}
    ensures all - rest == all
  {
  }
}
