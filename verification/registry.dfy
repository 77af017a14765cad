/**
 * The embed registry (`ORIGINAL_STYLES` in lib.rs): a list of the style,
 * extended style and screen rectangle each window had when it was first
 * embedded. Entries are appended only for handles not yet present, looked up
 * by first match, and never removed.
 */
module Registry {
  import opened Common
  import opened Win32

  /** One saved record: `(hwnd, original_style, original_exstyle, original_rect)`. */
  datatype Saved = Saved(handle: Handle, style: Flags, exstyle: Flags, rect: Rect)

  type Registry = seq<Saved>

  /** At most one record per handle. */
  ghost predicate Unique(reg: Registry) {
    forall i, j :: 0 <= i < j < |reg| ==> reg[i].handle != reg[j].handle
  }

  /** Is there a record for `h`? (`styles.iter().any(|(h, ..)| *h == target)`) */
  predicate Has(reg: Registry, h: Handle) {
    exists i :: 0 <= i < |reg| && reg[i].handle == h
  }

  /** The first record for `h` (`styles.iter().find(..)`). */
  function Lookup(reg: Registry, h: Handle): (r: Option<Saved>)
    ensures r.None? <==> !Has(reg, h)
    ensures r.Some? ==> exists i :: 0 <= i < |reg| && reg[i] == r.value
                                    && forall j :: 0 <= j < i ==> reg[j].handle != h
    ensures r.Some? ==> r.value.handle == h
  {
    if |reg| == 0 then None
    else if reg[0].handle == h then Some(reg[0])
    else
      var r := Lookup(reg[1..], h);
      assert forall i :: 0 <= i < |reg| - 1 ==> reg[1..][i] == reg[i + 1];
      r
  }

  /** Append `s` unless its handle already has a record. */
  function Remember(reg: Registry, s: Saved): (r: Registry)
    ensures Has(reg, s.handle) ==> r == reg
    ensures !Has(reg, s.handle) ==> r == reg + [s]
  {
    if Has(reg, s.handle) then reg else reg + [s]
  }

  /** Remembering keeps at most one record per handle. */
  lemma RememberKeepsUnique(reg: Registry, s: Saved)
    requires Unique(reg)
    ensures Unique(Remember(reg, s))
  {
  }

  /**
   * After remembering, the record for `s.handle` is the one that was there
   * before if there was one (the first capture wins), otherwise `s`; every
   * other handle's record is untouched, and nothing is ever dropped.
   */
  lemma {:induction false} RememberFirstWins(reg: Registry, s: Saved, h: Handle)
    ensures Lookup(Remember(reg, s), h) ==
              if h == s.handle && !Has(reg, h) then Some(s) else Lookup(reg, h)
    ensures reg <= Remember(reg, s)
  {
    if !Has(reg, s.handle) {
      LookupAppend(reg, s, h);
    }
  }

  /** Looking up in an extended list finds the old record first. */
  lemma {:induction false} LookupAppend(reg: Registry, s: Saved, h: Handle)
    ensures Lookup(reg + [s], h) == if Has(reg, h) then Lookup(reg, h) else if s.handle == h then Some(s) else None
    decreases |reg|
  {
    if |reg| > 0 {
      assert (reg + [s])[1..] == reg[1..] + [s];
      LookupAppend(reg[1..], s, h);
      if reg[0].handle != h {
        assert Has(reg, h) <==> Has(reg[1..], h) by {
          if Has(reg, h) {
            var i :| 0 <= i < |reg| && reg[i].handle == h;
            assert reg[1..][i - 1].handle == h;
          }
          if Has(reg[1..], h) {
            var i :| 0 <= i < |reg[1..]| && reg[1..][i].handle == h;
            assert reg[i + 1].handle == h;
          }
        }
      }
    }
  }
}
