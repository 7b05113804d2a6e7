/**
 * The answer member_callback gives to a cman shutdown request: shutdown is
 * refused while any lockspace other than gfs_controld's is active.
 */
module ShutdownVote {

  /** The lockspace name prefix that never blocks shutdown, and its length. */
  const EXEMPT_PREFIX: string := "gfs_controld"
  const EXEMPT_LEN: nat := 12

  /** The character a C string holds at `i`: past the end it is the terminating NUL. */
  function CharAt(s: string, i: nat): char
  {
    if i < |s| then s[i] else '\0'
  }

  predicate NoNul(s: string)
  {
    forall i | 0 <= i < |s| :: s[i] != '\0'
  }

  /**
   * The loop of strncmp from position i: the strings agree up to position
   * n, where comparison stops early once both reach their terminating NUL.
   */
  function StrnEqualFrom(a: string, b: string, i: nat, n: nat): bool
    decreases n - i
  {
    if i >= n then true
    else if CharAt(a, i) != CharAt(b, i) then false
    else if CharAt(a, i) == '\0' then true
    else StrnEqualFrom(a, b, i + 1, n)
  }

  /** strncmp(a, b, n) == 0. */
  function StrnEqual(a: string, b: string, n: nat): bool
  {
    StrnEqualFrom(a, b, 0, n)
  }

  /** A lockspace that does not block shutdown. */
  predicate Exempt(name: string)
  {
    StrnEqual(name, EXEMPT_PREFIX, EXEMPT_LEN)
  }

  /** Every lockspace is exempt; true for an empty list. */
  predicate AllExempt(names: seq<string>)
  {
    forall i | 0 <= i < |names| :: Exempt(names[i])
  }

  /**
   * The scan of the lockspace list on CMAN_REASON_TRY_SHUTDOWN: it returns
   * false (reply 0) at the first lockspace that is not exempt and true
   * (reply 1) once the whole list has been passed.
   */
  method Vote(names: seq<string>) returns (approve: bool)
    ensures approve <==> AllExempt(names)
  {
    var i := 0;
    while i < |names|
      invariant 0 <= i <= |names|
      invariant forall j | 0 <= j < i :: Exempt(names[j])
    {
      if !Exempt(names[i]) {
        return false;
      }
      i := i + 1;
    }
    return true;
  }

  /**
   * For NUL-free strings, strncmp from position i up to |p| succeeds
   * exactly when `a` holds the characters of `p` at those positions.
   */
  lemma {:induction false} StrnEqualFromMatches(a: string, p: string, i: nat)
    requires NoNul(a) && NoNul(p) && i <= |p|
    ensures StrnEqualFrom(a, p, i, |p|) <==> forall j {:trigger p[j]} | i <= j < |p| :: j < |a| && a[j] == p[j]
    decreases |p| - i
  {
    if i < |p| {
      StrnEqualFromMatches(a, p, i + 1);
    }
  }

  /**
   * For NUL-free strings, comparing the first |p| characters with strncmp
   * is the same as asking whether `p` is a prefix of `a`.
   */
  lemma StrnEqualIsPrefix(a: string, p: string)
    requires NoNul(a) && NoNul(p)
    ensures StrnEqual(a, p, |p|) <==> p <= a
  {
    StrnEqualFromMatches(a, p, 0);
    if StrnEqual(a, p, |p|) {
      assert |p| <= |a| by {
        if |p| > 0 {
          var last := |p| - 1;
          var c := p[last];
          assert last < |a|;
        }
      }
      forall j | 0 <= j < |p|
        ensures a[..|p|][j] == p[j]
      {
        var c := p[j];
        assert j < |a| && a[j] == c;
      }
      assert p == a[..|p|];
    }
  }

  /** A NUL-free lockspace name is exempt exactly when it starts with "gfs_controld". */
  lemma ExemptIffPrefix(name: string)
    requires NoNul(name)
    ensures Exempt(name) <==> |name| >= EXEMPT_LEN && name[..EXEMPT_LEN] == EXEMPT_PREFIX
  {
    StrnEqualIsPrefix(name, EXEMPT_PREFIX);
  }

  /**
   * A single lockspace whose name does not start with "gfs_controld",
   * wherever it stands in the list, makes the vote a refusal.
   */
  lemma OneForeignLockspaceVetoes(names: seq<string>, k: nat)
    requires k < |names| && NoNul(names[k])
    requires |names[k]| < EXEMPT_LEN || names[k][..EXEMPT_LEN] != EXEMPT_PREFIX
    ensures !AllExempt(names)
  {
    ExemptIffPrefix(names[k]);
  }
}
