/** Maps from names to ids that only grow. */
module Dictionaries {

  ghost predicate Extends(ids: map<string, nat>, more: map<string, nat>) {
    forall name :: name in ids ==> name in more && more[name] == ids[name]
  }

  lemma ExtendsItself(ids: map<string, nat>)
    ensures Extends(ids, ids)
  {
  }

  lemma ExtendsFurther(ids: map<string, nat>, more: map<string, nat>, most: map<string, nat>)
    requires Extends(ids, more) && Extends(more, most)
    ensures Extends(ids, most)
  {
  }

  lemma KeysExtend(ids: map<string, nat>, more: map<string, nat>)
    requires Extends(ids, more)
    ensures ids.Keys <= more.Keys
  {
  }
}
