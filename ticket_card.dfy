/** The ticket views of app.py: the status selector's preselected index
    (landlord panel) and the normalisation of a ticket card (tenant's
    ticket list), with the badge classes the stylesheet defines. */
module TicketCard {
  import opened Text

  /** The landlord panel's status selector. */
  const StatusOptions: seq<string> := ["open", "in_progress", "closed"]

  /** The preselected index: the status's position among the options, or 0. */
  function StatusIndex(status: string): (r: nat)
    ensures r < |StatusOptions|
    ensures status in StatusOptions ==> StatusOptions[r] == status
    ensures status !in StatusOptions ==> r == 0
  {
    if status == "open" then 0
    else if status == "in_progress" then 1
    else if status == "closed" then 2
    else 0
  }

  /** Python's `str.capitalize` on ASCII letters: first character upper
      case, the rest lower case. */
  function Capitalize(s: string): (r: string)
    ensures |r| == |s|
    ensures Lower(r) == Lower(s)
    ensures |r| > 0 ==> UpperChar(r[0]) == r[0]
    ensures forall i :: 1 <= i < |r| ==> LowerChar(r[i]) == r[i]
  {
    if s == [] then []
    else
      var r := [UpperChar(s[0])] + Lower(s[1..]);
      assert forall i :: 0 <= i < |r| ==> LowerChar(r[i]) == LowerChar(s[i]) by {
        forall i | 0 <= i < |r| ensures LowerChar(r[i]) == LowerChar(s[i]) {
          if i > 0 { assert r[i] == LowerChar(s[1..][i - 1]); }
        }
      }
      r
  }

  /** `capitalize` ignores the case it is given. */
  lemma CapitalizeIgnoresCase(s: string, t: string)
    requires Lower(s) == Lower(t)
    ensures Capitalize(s) == Capitalize(t)
  {
    if s != [] {
      assert LowerChar(s[0]) == LowerChar(t[0]) by { assert Lower(s)[0] == Lower(t)[0]; }
      assert UpperChar(s[0]) == UpperChar(t[0]);
      assert Lower(s[1..]) == Lower(s)[1..];
      assert Lower(t[1..]) == Lower(t)[1..];
    }
  }

  /** The card background for a (capitalized) priority, grey by default. */
  function PriorityColor(priority: string): (r: string)
    ensures priority !in {"Low", "Normal", "High", "Urgent"} ==> r == "#f0f0f0"
  {
    match priority
    case "Low" => "#d1e7dd"
    case "Normal" => "#cff4fc"
    case "High" => "#fff3cd"
    case "Urgent" => "#f8d7da"
    case _ => "#f0f0f0"
  }

  /** A card's colour depends only on the priority's letters, not their case. */
  lemma CardColorIgnoresCase(s: string, t: string)
    requires Lower(s) == Lower(t)
    ensures PriorityColor(Capitalize(s)) == PriorityColor(Capitalize(t))
  {
    CapitalizeIgnoresCase(s, t);
  }

  /** `s.replace(c, "")` for a single character. */
  function RemoveChar(s: string, c: char): (r: string)
    ensures |r| <= |s|
    ensures forall i :: 0 <= i < |r| ==> r[i] != c
    ensures (forall i :: 0 <= i < |s| ==> s[i] != c) ==> r == s
    ensures |r| + CountChar(s, c) == |s|
  {
    if s == [] then []
    else
      assert [s[0]][..0] == [];
      assert [s[0]] + s[1..] == s;
      CountCharAppend([s[0]], s[1..], c);
      (if s[0] == c then [] else [s[0]]) + RemoveChar(s[1..], c)
  }

  /** Helper for `StatusBadgeClass`: removing one character keeps another
      one absent. */
  lemma {:induction false} RemoveCharKeepsAbsent(s: string, c: char, d: char)
    requires forall i :: 0 <= i < |s| ==> s[i] != d
    ensures forall i :: 0 <= i < |RemoveChar(s, c)| ==> RemoveChar(s, c)[i] != d
  {
    if s != [] {
      RemoveCharKeepsAbsent(s[1..], c, d);
    }
  }

  /** The CSS badge classes the stylesheet defines. */
  const CssStatusClasses: set<string> := {"open", "inprogress", "closed"}

  /** The badge class as written: the status lowercased with spaces removed. */
  function StatusClass(status: string): (r: string)
    ensures Plain(r)
    ensures |r| <= |status|
  {
    RemoveSpacePlain(Lower(status));
    RemoveChar(Lower(status), ' ')
  }

  /** Removing the spaces from a text without capitals leaves it plain. */
  lemma {:induction false} RemoveSpacePlain(s: string)
    requires forall i :: 0 <= i < |s| ==> !('A' <= s[i] <= 'Z')
    ensures Plain(RemoveChar(s, ' '))
  {
    if s != [] {
      RemoveSpacePlain(s[1..]);
      if s[0] != ' ' {
        assert !('A' <= s[0] <= 'Z');
        assert RemoveChar(s, ' ') == [s[0]] + RemoveChar(s[1..], ' ');
        assert ([s[0]] + RemoveChar(s[1..], ' '))[1..] == RemoveChar(s[1..], ' ');
      } else {
        assert RemoveChar(s, ' ') == [] + RemoveChar(s[1..], ' ');
        assert [] + RemoveChar(s[1..], ' ') == RemoveChar(s[1..], ' ');
      }
    }
  }

  /** Text with no capital letter and no space. */
  predicate Plain(s: string) {
    s == [] || (!('A' <= s[0] <= 'Z') && s[0] != ' ' && Plain(s[1..]))
  }

  /** Helper for `StatusClassMissesInProgress` and `StatusBadgeClassCovers`:
      a text is plain when each of its characters is. */
  lemma {:induction false} PlainByChars(s: string)
    requires forall i :: 0 <= i < |s| ==> !('A' <= s[i] <= 'Z') && s[i] != ' '
    ensures Plain(s)
  {
    if s != [] {
      PlainByChars(s[1..]);
    }
  }

  /** `replace` works character by character: removal distributes over
      concatenation. */
  lemma {:induction false} RemoveCharAppend(a: string, b: string, c: char)
    ensures RemoveChar(a + b, c) == RemoveChar(a, c) + RemoveChar(b, c)
  {
    if a == [] {
      assert a + b == b;
    } else {
      assert (a + b)[1..] == a[1..] + b;
      RemoveCharAppend(a[1..], b, c);
    }
  }

  /** The class of a status is the classes of its pieces joined: the status
      is lower-cased and stripped of spaces character by character. */
  lemma {:induction false} StatusClassAppend(a: string, b: string)
    ensures StatusClass(a + b) == StatusClass(a) + StatusClass(b)
  {
    LowerAppend(a, b);
    RemoveCharAppend(Lower(a), Lower(b), ' ');
  }

  /** A single character: a space is dropped, anything else is lower-cased. */
  lemma {:induction false} StatusClassOne(ch: char)
    ensures StatusClass([ch]) == if ch == ' ' then [] else [LowerChar(ch)]
  {
    assert Lower([ch]) == [LowerChar(ch)];
    assert [LowerChar(ch)][1..] == [];
  }

  /** Helper for `StatusClassAppend`: lower-casing works character by character. */
  lemma LowerAppend(a: string, b: string)
    ensures Lower(a + b) == Lower(a) + Lower(b)
  {
    assert forall i :: 0 <= i < |a + b| ==> Lower(a + b)[i] == (Lower(a) + Lower(b))[i];
  }

  /** A status without capitals or spaces is its own class. */
  lemma {:induction false} PlainStatusClass(status: string)
    requires Plain(status)
    ensures StatusClass(status) == status
  {
    if status != [] {
      PlainStatusClass(status[1..]);
      assert Lower(status) == [LowerChar(status[0])] + Lower(status[1..]);
    }
  }

  /** The status the selector offers as "in_progress" gets a class the
      stylesheet does not define, so its badge is unstyled. */
  lemma StatusClassMissesInProgress()
    ensures "in_progress" in StatusOptions
    ensures StatusClass("in_progress") == "in_progress"
    ensures StatusClass("in_progress") !in CssStatusClasses
  {
    PlainByChars("in_progress");
    PlainStatusClass("in_progress");
    InProgressIsNoCssClass();
  }

  /** Helper for `StatusClassMissesInProgress`: a literal membership fact. */
  lemma InProgressIsNoCssClass()
    ensures "in_progress" !in CssStatusClasses
  {
  }

  /** The badge class the stylesheet expects: underscores are dropped too. */
  function StatusBadgeClass(status: string): (r: string)
    ensures forall i :: 0 <= i < |r| ==> r[i] != ' ' && r[i] != '_'
    ensures |r| <= |status|
  {
    RemoveCharKeepsAbsent(StatusClass(status), '_', ' ');
    RemoveChar(StatusClass(status), '_')
  }

  /** The corrected class of "in_progress" is the stylesheet's "inprogress". */
  lemma InProgressBadge(status: string)
    requires status == "in_progress"
    ensures StatusBadgeClass(status) == "inprogress"
  {
    PlainByChars(status);
    assert StatusClass(status) == status by { PlainStatusClass(status); }
    assert RemoveChar(status, '_') == "inprogress" by { DropUnderscore(); }
    BadgeClassOfClass(status);
  }

  /** Helper for `StatusBadgeClassCovers`: a plain status without
      underscores is its own corrected class. */
  lemma PlainBadge(status: string)
    requires Plain(status) && forall i :: 0 <= i < |status| ==> status[i] != '_'
    ensures StatusBadgeClass(status) == status
  {
    BadgeClassOfClass(status);
    PlainStatusClass(status);
  }

  /** The corrected class of a status is the corrected classes of its
      pieces joined. */
  lemma {:induction false} StatusBadgeClassAppend(a: string, b: string)
    ensures StatusBadgeClass(a + b) == StatusBadgeClass(a) + StatusBadgeClass(b)
  {
    StatusClassAppend(a, b);
    RemoveCharAppend(StatusClass(a), StatusClass(b), '_');
    BadgeClassOfClass(a + b);
    BadgeClassOfClass(a);
    BadgeClassOfClass(b);
  }

  /** A single character: a space or an underscore is dropped, anything
      else is lower-cased. */
  lemma {:induction false} StatusBadgeClassOne(ch: char)
    ensures StatusBadgeClass([ch]) == if ch == ' ' || ch == '_' then [] else [LowerChar(ch)]
  {
    StatusClassOne(ch);
    BadgeClassOfClass([ch]);
    if ch != ' ' {
      assert [LowerChar(ch)][1..] == [];
    }
  }

  /** Helper: the badge class is the status class without underscores. */
  lemma BadgeClassOfClass(status: string)
    ensures StatusBadgeClass(status) == RemoveChar(StatusClass(status), '_')
  {
  }

  /** Helper for `InProgressBadge`: dropping the underscore from "in_progress". */
  lemma DropUnderscore()
    ensures RemoveChar("in_progress", '_') == "inprogress"
  {
    KeepsWithout("in", '_');
    KeepsWithout("progress", '_');
    InProgressSplits();
    RemoveCharAppend("in_", "progress", '_');
    RemoveCharAppend("in", "_", '_');
    assert RemoveChar("_", '_') == [];
    InProgressJoins();
  }

  /** Helper for `DropUnderscore`: removing an absent character changes nothing. */
  lemma KeepsWithout(s: string, c: char)
    requires c !in s
    ensures RemoveChar(s, c) == s
  {
  }

  /** Helper for `DropUnderscore`: a literal concatenation. */
  lemma InProgressJoins()
    ensures "in" + "progress" == "inprogress"
  {
  }

  /** Helper for `DropUnderscore`: a literal split. */
  lemma InProgressSplits()
    ensures "in_progress" == "in_" + "progress" && "in_" == "in" + "_"
  {
  }

  /** Every status the selector offers gets a class the stylesheet defines. */
  lemma StatusBadgeClassCovers()
    ensures forall s :: s in StatusOptions ==> StatusBadgeClass(s) in CssStatusClasses
  {
    forall s | s in StatusOptions ensures StatusBadgeClass(s) in CssStatusClasses {
      if s == "open" {
        PlainByChars(s);
        PlainBadge(s);
      } else if s == "closed" {
        PlainByChars(s);
        PlainBadge(s);
      } else {
        InProgressBadge(s);
      }
    }
  }
}
