/**
 * The hospital set-up form's specialty list: a typed specialty is trimmed and added
 * once; a listed one can be removed.
 */
module HospitalSetup {
  import Seqs

  datatype HospitalType = Public | Private | University

  /** `formData`. */
  datatype FormData = FormData(
    name: string,
    address: string,
    city: string,
    state: string,
    phone: string,
    email: string,
    director: string,
    beds: int,
    kind: HospitalType,
    specialties: seq<string>)

  /** The form and the text typed into the specialty field. */
  datatype SetupState = SetupState(form: FormData, specialtyInput: string)

  /** The characters `String.prototype.trim` strips: ECMAScript WhiteSpace and LineTerminator. */
  predicate IsTrimmable(c: char)
  {
    var n := c as int;
    n == 0x09 || n == 0x0B || n == 0x0C || n == 0x20 || n == 0xA0 || n == 0xFEFF ||  // WhiteSpace
    n == 0x1680 || (0x2000 <= n <= 0x200A) || n == 0x202F || n == 0x205F || n == 0x3000 || // Zs
    n == 0x0A || n == 0x0D || n == 0x2028 || n == 0x2029                            // LineTerminator
  }

  function TrimStart(s: string): (r: string)
    ensures r == [] || !IsTrimmable(r[0])
    ensures |r| <= |s| && r == s[|s| - |r|..]
    ensures forall i :: 0 <= i < |s| - |r| ==> IsTrimmable(s[i])
    decreases |s|
  {
    if s != [] && IsTrimmable(s[0]) then TrimStart(s[1..]) else s
  }

  function TrimEnd(s: string): (r: string)
    ensures r == [] || !IsTrimmable(r[|r| - 1])
    ensures |r| <= |s| && r == s[..|r|]
    ensures forall i :: |r| <= i < |s| ==> IsTrimmable(s[i])
    decreases |s|
  {
    if s != [] && IsTrimmable(s[|s| - 1]) then TrimEnd(s[..|s| - 1]) else s
  }

  /** `s.trim()`. */
  function Trim(s: string): (r: string)
    ensures r == [] || (!IsTrimmable(r[0]) && !IsTrimmable(r[|r| - 1]))
    ensures |s| - |TrimStart(s)| + |r| <= |s|
    ensures r == s[|s| - |TrimStart(s)|..|s| - |TrimStart(s)| + |r|]
    ensures forall i :: 0 <= i < |s| - |TrimStart(s)| ==> IsTrimmable(s[i])
    ensures forall i :: |s| - |TrimStart(s)| + |r| <= i < |s| ==> IsTrimmable(s[i])
  {
    var a := TrimStart(s);
    var r := TrimEnd(a);
    TrimEndOfSuffix(s, a, r);
    r
  }

  /** Where the stripped tail of a suffix lies in the whole string. */
  lemma TrimEndOfSuffix(s: string, a: string, r: string)
    requires |a| <= |s| && a == s[|s| - |a|..]
    requires |r| <= |a| && r == a[..|r|]
    requires forall i :: |r| <= i < |a| ==> IsTrimmable(a[i])
    ensures r != [] ==> r[0] == a[0]
    ensures r == s[|s| - |a|..|s| - |a| + |r|]
    ensures forall i :: |s| - |a| + |r| <= i < |s| ==> IsTrimmable(s[i])
  {
    var start := |s| - |a|;
    forall i | start + |r| <= i < |s|
      ensures IsTrimmable(s[i])
    {
      assert s[i] == a[i - start];
    }
  }

  /** A trimmed string neither starts nor ends with a trimmable character. */
  predicate IsTrimmed(s: string)
  {
    s == [] || (!IsTrimmable(s[0]) && !IsTrimmable(s[|s| - 1]))
  }

  /** Trimming yields a trimmed string, and trimming that again changes nothing. */
  lemma TrimIsTrimmed(s: string)
    ensures IsTrimmed(Trim(s))
    ensures Trim(Trim(s)) == Trim(s)
  {
    var r := Trim(s);
    assert IsTrimmed(r);
    TrimStartOfTrimmed(r);
    TrimEndOfTrimmed(r);
  }

  lemma TrimStartOfTrimmed(s: string)
    requires IsTrimmed(s)
    ensures TrimStart(s) == s
  {
  }

  lemma TrimEndOfTrimmed(s: string)
    requires IsTrimmed(s)
    ensures TrimEnd(s) == s
  {
  }

  /** Every specialty is trimmed and non-empty, and none is listed twice. */
  predicate WellFormed(specialties: seq<string>)
  {
    Seqs.NoDuplicates(specialties) &&
    forall i :: 0 <= i < |specialties| ==> specialties[i] != "" && IsTrimmed(specialties[i])
  }

  /**
   * `addSpecialty`: a non-blank input that is not yet listed is appended trimmed and the
   * field is cleared; anything else leaves the state as it was.
   */
  function AddSpecialty(st: SetupState): (r: SetupState)
    ensures var t := Trim(st.specialtyInput);
            if t != "" && t !in st.form.specialties then
              r.form == st.form.(specialties := st.form.specialties + [t]) && r.specialtyInput == ""
            else
              r == st
  {
    var t := Trim(st.specialtyInput);
    if t != "" && t !in st.form.specialties then
      SetupState(st.form.(specialties := st.form.specialties + [t]), "")
    else st
  }

  /** `removeSpecialty`: every entry equal to `specialty` is dropped, the rest kept in order. */
  function RemoveSpecialty(st: SetupState, specialty: string): (r: SetupState)
    ensures r.form == st.form.(specialties := r.form.specialties)
    ensures r.specialtyInput == st.specialtyInput
    ensures specialty !in r.form.specialties
    ensures Seqs.IsSubsequence(r.form.specialties, st.form.specialties)
    ensures forall i :: 0 <= i < |st.form.specialties| && st.form.specialties[i] != specialty ==>
              st.form.specialties[i] in r.form.specialties
    ensures specialty !in st.form.specialties ==> r == st
  {
    Seqs.RemoveAllIsSubsequence(st.form.specialties, specialty);
    Seqs.RemoveAllAbsent(st.form.specialties, specialty);
    st.(form := st.form.(specialties := Seqs.RemoveAll(st.form.specialties, specialty)))
  }

  /** Adding keeps the specialty list well formed. */
  lemma AddPreservesWellFormed(st: SetupState)
    requires WellFormed(st.form.specialties)
    ensures WellFormed(AddSpecialty(st).form.specialties)
  {
    var t := Trim(st.specialtyInput);
    var s := st.form.specialties;
    if t != "" && t !in s {
      TrimIsTrimmed(st.specialtyInput);
      var s' := s + [t];
      assert AddSpecialty(st).form.specialties == s';
      forall i, j | 0 <= i < j < |s'| ensures s'[i] != s'[j] {
        if j == |s| {
          assert s'[i] == s[i];
        } else {
          assert s'[i] == s[i] && s'[j] == s[j];
        }
      }
      forall i | 0 <= i < |s'| ensures s'[i] != "" && IsTrimmed(s'[i]) {
        if i < |s| {
          assert s'[i] == s[i];
        }
      }
    }
  }

  /** Removing keeps the specialty list well formed. */
  lemma RemovePreservesWellFormed(st: SetupState, specialty: string)
    requires WellFormed(st.form.specialties)
    ensures WellFormed(RemoveSpecialty(st, specialty).form.specialties)
  {
    Seqs.RemoveAllNoDuplicates(st.form.specialties, specialty);
  }

  /** Adding a specialty and then removing it gives back the list from before. */
  lemma AddThenRemove(st: SetupState)
    requires WellFormed(st.form.specialties)
    requires Trim(st.specialtyInput) != "" && Trim(st.specialtyInput) !in st.form.specialties
    ensures RemoveSpecialty(AddSpecialty(st), Trim(st.specialtyInput)).form == st.form
  {
    var t := Trim(st.specialtyInput);
    var s := st.form.specialties;
    RemoveAllAppend(s, t);
    Seqs.RemoveAllAbsent(s, t);
  }

  /** Removing `x` from `s + [x]` is removing it from `s`. */
  lemma {:induction false} RemoveAllAppend(s: seq<string>, x: string)
    ensures Seqs.RemoveAll(s + [x], x) == Seqs.RemoveAll(s, x)
  {
    if s == [] {
      assert [x][1..] == [];
    } else {
      assert (s + [x])[1..] == s[1..] + [x];
      RemoveAllAppend(s[1..], x);
    }
  }
}
