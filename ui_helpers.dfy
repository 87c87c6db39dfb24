/**
  The pure helpers of the exporter's UI toolkit layer: the character filters behind the
  file-name and directory text fields, the decoder of the host's modifier-key bitmask, and the
  two text-field objects whose stored value those filters maintain.
*/
module UiHelpers {
  import opened Common

  /** Characters a package or scene file name may not contain: \ / : * ? " < > | */
  const FileNameForbidden: set<char> := {'\\', '/', ':', '*', '?', '"', '<', '>', '|'}

  /** Characters a directory may not contain; separators and the drive colon are allowed. */
  const DirectoryForbidden: set<char> := {'*', '?', '"', '<', '>', '|'}

  predicate Clean(s: string, bad: set<char>) {
    forall i :: 0 <= i < |s| ==> s[i] !in bad
  }

  /**
    `s` with every character of `bad` deleted and every other character kept in order.
    Deleting maximal runs of bad characters, as the source's regular expression does, deletes
    exactly the bad characters.
  */
  function Strip(s: string, bad: set<char>): (r: string)
    ensures Clean(r, bad)
    ensures |r| <= |s|
  {
    if s == [] then [] else (if s[0] in bad then [] else [s[0]]) + Strip(s[1..], bad)
  }

  function SanitizeFileName(s: string): string {
    Strip(s, FileNameForbidden)
  }

  function SanitizeDirectory(s: string): string {
    Strip(s, DirectoryForbidden)
  }

  /** Stripping distributes over concatenation: it works character by character. */
  lemma {:induction false} StripAppend(a: string, b: string, bad: set<char>)
    ensures Strip(a + b, bad) == Strip(a, bad) + Strip(b, bad)
  {
    if a == [] {
      assert a + b == b;
    } else {
      assert (a + b)[1..] == a[1..] + b;
      StripAppend(a[1..], b, bad);
    }
  }

  /** Stripping changes a string exactly when it holds a forbidden character. */
  lemma {:induction false} StripIdentity(s: string, bad: set<char>)
    ensures Strip(s, bad) == s <==> Clean(s, bad)
  {
    if s != [] && Clean(s, bad) {
      StripIdentity(s[1..], bad);
    }
  }

  /** Sanitizing twice is sanitizing once. */
  lemma StripIdempotent(s: string, bad: set<char>)
    ensures Strip(Strip(s, bad), bad) == Strip(s, bad)
  {
    StripIdentity(Strip(s, bad), bad);
  }

  /** A character survives stripping exactly when it is allowed and occurs in the input. */
  lemma {:induction false} StripMembership(s: string, bad: set<char>, c: char)
    ensures c in Strip(s, bad) <==> c in s && c !in bad
  {
    if s != [] {
      StripMembership(s[1..], bad, c);
      assert s == [s[0]] + s[1..];
    }
  }

  /**
    A directory that went through the directory filter and then the file-name filter reads
    the same as one that went through the file-name filter alone: the directory filter deletes
    a subset of what the file-name filter deletes.
  */
  lemma {:induction false} StripNested(s: string, small: set<char>, large: set<char>)
    requires small <= large
    ensures Strip(Strip(s, small), large) == Strip(s, large)
  {
    if s != [] {
      StripNested(s[1..], small, large);
      StripAppend(if s[0] in small then [] else [s[0]], Strip(s[1..], small), large);
    }
  }

  lemma DirectoryThenFileName(s: string)
    ensures SanitizeFileName(SanitizeDirectory(s)) == SanitizeFileName(s)
  {
    StripNested(s, DirectoryForbidden, FileNameForbidden);
  }

  /* ---------------- Modifier keys ---------------- */

  predicate Bit(mods: nat, weight: nat)
    requires weight > 0
  {
    (mods / weight) % 2 == 1
  }

  /**
    The names of the modifier keys held, from the host's bitmask: bit value 1 is Shift,
    4 is Ctrl, 8 is Alt and 16 is Win, always reported in that order.
  */
  function Modifiers(mods: nat): seq<string> {
    (if Bit(mods, 1) then ["Shift"] else [])
    + (if Bit(mods, 4) then ["Ctrl"] else [])
    + (if Bit(mods, 8) then ["Alt"] else [])
    + (if Bit(mods, 16) then ["Win"] else [])
  }

  /** Position of a key name in the reporting order. */
  function Rank(key: string): nat {
    if key == "Shift" then 0 else if key == "Ctrl" then 1 else if key == "Alt" then 2 else 3
  }

  /** The bitmask the host reports for a combination of held keys. */
  function MaskOf(shift: bool, ctrl: bool, alt: bool, win: bool): nat {
    (if shift then 1 else 0) + (if ctrl then 4 else 0) + (if alt then 8 else 0) + (if win then 16 else 0)
  }

  /** The report for a combination of held keys, written out. */
  function Held(shift: bool, ctrl: bool, alt: bool, win: bool): seq<string> {
    (if shift then ["Shift"] else []) + (if ctrl then ["Ctrl"] else [])
    + (if alt then ["Alt"] else []) + (if win then ["Win"] else [])
  }

  /**
    Decoding a mask gives back the keys it was built from, whatever bit 2 and the bits above 16
    say: those are ignored.
  */
  lemma ModifiersDecode(shift: bool, ctrl: bool, alt: bool, win: bool, bit2: bool, high: nat)
    ensures Modifiers(MaskOf(shift, ctrl, alt, win) + (if bit2 then 2 else 0) + 32 * high)
         == Held(shift, ctrl, alt, win)
  {
    var s, b, c, a, w := if shift then 1 else 0, if bit2 then 1 else 0, if ctrl then 1 else 0,
                         if alt then 1 else 0, if win then 1 else 0;
    var m := MaskOf(shift, ctrl, alt, win) + (if bit2 then 2 else 0) + 32 * high;
    assert m == s + 2 * (b + 2 * c + 4 * a + 8 * w + 16 * high);
    DivUnique(m, 2, b + 2 * c + 4 * a + 8 * w + 16 * high, s);
    assert m / 1 == m;
    assert Bit(m, 1) == shift;
    assert m == (s + 2 * b) + 4 * (c + 2 * (a + 2 * w + 4 * high));
    DivUnique(m, 4, c + 2 * (a + 2 * w + 4 * high), s + 2 * b);
    DivUnique(c + 2 * (a + 2 * w + 4 * high), 2, a + 2 * w + 4 * high, c);
    assert Bit(m, 4) == ctrl;
    assert m == (s + 2 * b + 4 * c) + 8 * (a + 2 * (w + 2 * high));
    DivUnique(m, 8, a + 2 * (w + 2 * high), s + 2 * b + 4 * c);
    DivUnique(a + 2 * (w + 2 * high), 2, w + 2 * high, a);
    assert Bit(m, 8) == alt;
    assert m == (s + 2 * b + 4 * c + 8 * a) + 16 * (w + 2 * high);
    DivUnique(m, 16, w + 2 * high, s + 2 * b + 4 * c + 8 * a);
    DivUnique(w + 2 * high, 2, high, w);
    assert Bit(m, 16) == win;
  }

  /** Euclidean division is determined by quotient and remainder. */
  lemma DivUnique(m: int, d: int, q: int, r: int)
    requires d > 0 && 0 <= r < d && m == q * d + r
    ensures m / d == q && m % d == r
  {
    var q0, r0 := m / d, m % d;
    assert q0 * d + r0 == m && 0 <= r0 < d;
    assert (q - q0) * d == r0 - r;
    if q0 < q {
      MulAtLeast(q - q0, d);
    } else if q < q0 {
      MulAtLeast(q0 - q, d);
    }
  }

  lemma MulAtLeast(k: int, d: int)
    requires k >= 1 && d > 0
    ensures k * d >= d
  {
    assert k * d == (k - 1) * d + d;
  }

  /** Every report is in the order Shift, Ctrl, Alt, Win and names no key twice. */
  lemma ModifiersOrdered(mods: nat)
    ensures forall i, j :: 0 <= i < j < |Modifiers(mods)| ==> Rank(Modifiers(mods)[i]) < Rank(Modifiers(mods)[j])
    ensures Distinct(Modifiers(mods))
  {
  }

  /** How the package and export-item "select" buttons combine with the current selection. */
  datatype SelectMode = Replace | Add | Toggle | Deselect

  /**
    Shift and Ctrl together add, Shift alone toggles, Ctrl alone deselects, anything else (and a
    call that ignores modifiers) replaces the selection.
  */
  function SelectModeFor(useModifiers: bool, mods: nat): (m: SelectMode)
    ensures !useModifiers ==> m == Replace
    ensures useModifiers ==> (m == Add <==> "Shift" in Modifiers(mods) && "Ctrl" in Modifiers(mods))
    ensures useModifiers ==> (m == Toggle <==> "Shift" in Modifiers(mods) && "Ctrl" !in Modifiers(mods))
    ensures useModifiers ==> (m == Deselect <==> "Shift" !in Modifiers(mods) && "Ctrl" in Modifiers(mods))
  {
    if !useModifiers then Replace
    else
      var held := Modifiers(mods);
      if "Shift" in held && "Ctrl" in held then Add
      else if "Shift" in held then Toggle
      else if "Ctrl" in held then Deselect
      else Replace
  }

  /* ---------------- Text fields ---------------- */

  /** A text field that keeps its text free of the file-name forbidden characters. */
  class FileNameField {
    var text: string

    constructor ()
      ensures text == ""
    {
      text := "";
    }

    /** Programmatic assignment, as when a package is named after its first member. */
    method SetName(value: string)
      modifies this
      ensures text == SanitizeFileName(value)
    {
      text := SanitizeFileName(value);
    }

    /** The text-changed callback: the typed text is stored filtered. */
    method ChangeCommand(raw: string)
      modifies this
      ensures text == SanitizeFileName(raw)
      ensures Clean(text, FileNameForbidden)
    {
      text := SanitizeFileName(raw);
    }
  }

  /** A directory entry field: typed text is filtered, a browsed directory is stored verbatim. */
  class DirectoryField {
    var directory: string

    constructor ()
      ensures directory == ""
    {
      directory := "";
    }

    method ChangeCommand(raw: string)
      modifies this
      ensures directory == SanitizeDirectory(raw)
      ensures Clean(directory, DirectoryForbidden)
    {
      directory := SanitizeDirectory(raw);
    }

    /** `chosen` is the folder dialog's answer; a dismissed dialog changes nothing. */
    method Browse(chosen: Option<string>)
      modifies this
      ensures directory == if chosen.Some? then chosen.value else old(directory)
    {
      if chosen.Some? {
        directory := chosen.value;
      }
    }
  }
}
