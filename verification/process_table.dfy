/**
 * The live process table as both passes over it see it, and the name-based
 * protection test that both apply.
 *
 * Enumerating the table, asking the operating system to stop a process and
 * waiting for it are outside the model: a table is a sequence of listings in
 * enumeration order, and what happens when the pass acts on a process is
 * recorded in advance as that listing's `fate`.
 */
module ProcessTable {
  import opened Wrappers
  import opened Text

  /** How a process answers when a pass acts on it. */
  datatype Fate =
    | Responsive   // every call succeeds; after terminate() it exits within the wait
    | Lingering    // terminate() is accepted but the 3-second wait times out; kill() succeeds
    | Vanished     // the first call on it raises NoSuchProcess, AccessDenied or PermissionError
    | KillRefused  // terminate() is accepted, the wait times out, and kill() raises

  /** One entry of the process iterator with the attributes pid, name and exe.
      A name or exe that could not be read is `None`. */
  datatype Listing = Listing(pid: int, name: Option<string>, exe: Option<string>, fate: Fate)

  /** `any(p in name for p in protected)` with `name` already lowered. */
  predicate MatchesAny(protected: set<string>, lowered: string)
  {
    exists p :: p in protected && Contains(lowered, p)
  }

  /** A process name is protected when its lowercased form contains one of the
      protected substrings. */
  predicate IsProtected(protected: set<string>, name: string)
  {
    MatchesAny(protected, Lower(name))
  }

  /** Reference definition: a lowered name matches exactly when some
      protected substring occupies some span of it. */
  lemma MatchesAnyIffOccurs(protected: set<string>, lowered: string)
    ensures MatchesAny(protected, lowered) <==> exists p, i :: p in protected && OccursAt(lowered, p, i)
  {
    if MatchesAny(protected, lowered) {
      var p :| p in protected && Contains(lowered, p);
      ContainsIffOccurs(lowered, p);
    }
    if exists p, i :: p in protected && OccursAt(lowered, p, i) {
      var p, i :| p in protected && OccursAt(lowered, p, i);
      ContainsIffOccurs(lowered, p);
    }
  }

  /** Protection is monotone in the protected set: a larger set spares every
      name a smaller one spares. */
  lemma ProtectionMonotone(small: set<string>, large: set<string>, name: string)
    requires small <= large
    ensures IsProtected(small, name) ==> IsProtected(large, name)
  {
  }

  /** The test ignores case and position: a name whose lowercased form holds a
      protected substring anywhere is protected. */
  lemma {:induction false} EmbeddedIsProtected(protected: set<string>, name: string, p: string, i: int)
    requires p in protected
    requires OccursAt(Lower(name), p, i)
    ensures IsProtected(protected, name)
  {
    ContainsIffOccurs(Lower(name), p);
  }

  /** A lowered name is not protected when, for every protected substring, it
      lacks one of that substring's characters. */
  lemma NotProtectedBecause(protected: set<string>, lowered: string, missing: map<string, char>)
    requires forall p :: p in protected ==> p in missing && missing[p] in p && missing[p] !in lowered
    ensures !MatchesAny(protected, lowered)
  {
    forall p | p in protected
      ensures !Contains(lowered, p)
    {
      MissingCharNotContained(lowered, p, missing[p]);
    }
  }
}
