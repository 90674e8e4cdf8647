/** The status flags of a compared file (snapper/File.h) and their text form (snapper/File.cc). */
module FileStatus {

  /** The bit set of a file's status, one field a flag. */
  datatype Status = Status(created: bool, deleted: bool, kind: bool, content: bool, permissions: bool,
                           owner: bool, group: bool, xattrs: bool, acl: bool)

  const NOTHING := Status(false, false, false, false, false, false, false, false, false)
  const CREATED := NOTHING.(created := true)
  const DELETED := NOTHING.(deleted := true)

  /** Swaps created and deleted by the exclusive-or of the source, when one of the two is set. */
  function InvertStatus(s: Status): Status {
    if s.created || s.deleted then s.(created := !s.created, deleted := !s.deleted) else s
  }

  function Flag(on: bool, letter: char): char {
    if on then letter else '.'
  }

  function StatusToString(s: Status): (r: string)
    ensures |r| == 6
  {
    [if s.created then '+' else if s.deleted then '-' else if s.kind then 't' else if s.content then 'c' else '.',
     Flag(s.permissions, 'p'), Flag(s.owner, 'u'), Flag(s.group, 'g'), Flag(s.xattrs, 'x'), Flag(s.acl, 'a')]
  }

  function Has(str: string, at: nat, letter: char): bool {
    |str| > at && str[at] == letter
  }

  function StringToStatus(str: string): Status {
    Status(Has(str, 0, '+'), Has(str, 0, '-'), Has(str, 0, 't'), Has(str, 0, 'c'), Has(str, 1, 'p'),
           Has(str, 2, 'u'), Has(str, 3, 'g'), Has(str, 4, 'x'), Has(str, 5, 'a'))
  }

  /** At most one of the four flags that share the first letter. */
  predicate Writable(s: Status) {
    && !(s.created && s.deleted) && !(s.created && s.kind) && !(s.created && s.content)
    && !(s.deleted && s.kind) && !(s.deleted && s.content) && !(s.kind && s.content)
  }

  /** The text form gives the status back exactly when no two flags compete for the first letter. */
  lemma {:induction false} StatusTextRoundTrip(s: Status)
    ensures StringToStatus(StatusToString(s)) == s <==> Writable(s)
  {
  }

  /** A status line never has a space or a newline in its status, nor starts like a header or footer. */
  lemma {:induction false} StatusTextLetters(s: Status)
    ensures forall i | 0 <= i < 6 :: StatusToString(s)[i] in "+-tc.pugxa"
    ensures StatusToString(s)[0] in "+-tc."
  {
  }

  /** Each flag has a letter and a place of its own, but for the four that share the first place. */
  lemma {:induction false} StatusTextMeans(s: Status)
    ensures Writable(s) ==> (StatusToString(s)[0] == '+' <==> s.created) && (StatusToString(s)[0] == '-' <==> s.deleted)
                            && (StatusToString(s)[0] == 't' <==> s.kind) && (StatusToString(s)[0] == 'c' <==> s.content)
    ensures StatusToString(s)[1] == 'p' <==> s.permissions
    ensures StatusToString(s)[2] == 'u' <==> s.owner
    ensures StatusToString(s)[3] == 'g' <==> s.group
    ensures StatusToString(s)[4] == 'x' <==> s.xattrs
    ensures StatusToString(s)[5] == 'a' <==> s.acl
  {
  }

  lemma {:induction false} InvertTwice(s: Status)
    requires !(s.created && s.deleted)
    ensures InvertStatus(InvertStatus(s)) == s && Writable(InvertStatus(s)) == Writable(s)
  {
  }
}
