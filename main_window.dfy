/** The data side of the main window (mainwindow.cpp): the required-field check for a new
    patient, the case-insensitive search over the patient list, and the guard in front of a
    patient deletion. Form widgets, message boxes and the table become parameters and
    results: `currentRow` is the selected row (negative when none), `tableIds` the id column
    of the patient table, and `confirmed` the answer to the delete question. */
module MainWindow {
  import opened Common
  import opened Patient
  import opened Tables
  import opened Sorting
  import opened UserRepository

  /** `needle` occurs in `hay` starting at position `i`. */
  predicate OccursAt(hay: string, needle: string, i: int) {
    0 <= i <= |hay| - |needle| && hay[i..i + |needle|] == needle
  }

  // ---------------------------------------------------------------- trimming

  /** The white space `trimmed` strips: tab, line feed, vertical tab, form feed, carriage
      return, space, next line and no-break space. */
  predicate IsSpace(c: char) {
    c == ' ' || '\t' <= c <= '\r' || c as int == 0x85 || c as int == 0xA0
  }

  /** `s` without its leading white space. */
  function DropLeading(s: string): (t: string)
    ensures |t| <= |s| && t == s[|s| - |t|..]
    ensures t != [] ==> !IsSpace(t[0])
    ensures forall k | 0 <= k < |s| - |t| :: IsSpace(s[k])
  {
    if s != [] && IsSpace(s[0]) then DropLeading(s[1..]) else s
  }

  /** `s` without its trailing white space. */
  function DropTrailing(s: string): (t: string)
    ensures |t| <= |s| && t == s[..|t|]
    ensures t != [] ==> !IsSpace(t[|t| - 1])
    ensures forall k | |t| <= k < |s| :: IsSpace(s[k])
  {
    if s != [] && IsSpace(s[|s| - 1]) then DropTrailing(s[..|s| - 1]) else s
  }

  /** `QString::trimmed`: white space removed from both ends. */
  function Trimmed(s: string): (t: string)
    ensures |t| <= |s|
    ensures t != [] ==> !IsSpace(t[0]) && !IsSpace(t[|t| - 1])
  {
    DropTrailing(DropLeading(s))
  }

  /** Trimming keeps a contiguous middle part of the text whose ends are not white space, and
      everything cut off on either side is white space. */
  lemma TrimmedIsCore(s: string)
    ensures var t := Trimmed(s);
      && (t != [] ==> !IsSpace(t[0]) && !IsSpace(t[|t| - 1]))
      && exists i :: OccursAt(s, t, i)
  {
    var d := DropLeading(s);
    var i := |s| - |d|;
    assert d == s[i..];
    var t := DropTrailing(d);
    assert t == d[..|t|];
    assert s[i..i + |t|] == s[i..][..|t|];
    assert OccursAt(s, t, i);
  }

  /** A field trims to nothing exactly when it holds only white space, which is when the
      required-field check rejects it. */
  lemma TrimmedEmptyIffBlank(s: string)
    ensures Trimmed(s) == [] <==> forall k | 0 <= k < |s| :: IsSpace(s[k])
  {
  }

  /** Trimming twice is trimming once. */
  lemma TrimmedIdempotent(s: string)
    ensures Trimmed(Trimmed(s)) == Trimmed(s)
  {
    var t := Trimmed(s);
    assert DropLeading(t) == t;
    assert DropTrailing(t) == t;
  }

  // ---------------------------------------------------------------- new patient form

  /** The texts and date read from the new-patient form, before trimming. */
  datatype Form = Form(firstName: string, lastName1: string, lastName2: string, gender: string,
                       birthDate: Date, activityLevel: string, goal: string)

  /** The form after the three name fields are trimmed; the combo-box texts are taken as
      they are. */
  function Cleaned(f: Form): (g: Form)
    ensures g.gender == f.gender && g.birthDate == f.birthDate
    ensures g.activityLevel == f.activityLevel && g.goal == f.goal
    ensures g.firstName == Trimmed(f.firstName) && g.lastName1 == Trimmed(f.lastName1)
    ensures g.lastName2 == Trimmed(f.lastName2)
  {
    f.(firstName := Trimmed(f.firstName), lastName1 := Trimmed(f.lastName1),
       lastName2 := Trimmed(f.lastName2))
  }

  /** The required-field rule: first name, first surname, gender and activity level must be
      non-empty and the birth date set; the second surname and the goal are optional. */
  predicate RequiredFieldsPresent(f: Form) {
    f.firstName != [] && f.lastName1 != [] && f.gender != [] && f.birthDate != NullDate
    && f.activityLevel != []
  }

  /** A raw form passes the check exactly when its two mandatory names are not blank and the
      other mandatory fields are filled. */
  lemma RequiredFieldsOfRawForm(f: Form)
    ensures RequiredFieldsPresent(Cleaned(f)) <==>
      && !(forall k | 0 <= k < |f.firstName| :: IsSpace(f.firstName[k]))
      && !(forall k | 0 <= k < |f.lastName1| :: IsSpace(f.lastName1[k]))
      && f.gender != [] && f.birthDate != NullDate && f.activityLevel != []
  {
  }

  /** The row a valid form becomes once stored under `id` at time `now`. */
  function NewRow(f: Form, id: int, now: DateTime): UserRow {
    UserRow(id, f.firstName, f.lastName1, f.lastName2, f.gender, f.birthDate, f.activityLevel,
            f.goal, now)
  }

  // ---------------------------------------------------------------- search

  /** Lower-case of an ASCII letter; every other character is kept. */
  function Lower(c: char): (d: char)
    ensures 'A' <= c <= 'Z' ==> d as int == c as int + 32
    ensures !('A' <= c <= 'Z') ==> d == c
    ensures !('A' <= d <= 'Z')
  {
    if 'A' <= c <= 'Z' then (c as int + 32) as char else c
  }

  function LowerString(s: string): (t: string)
    ensures |t| == |s|
  {
    seq(|s|, i requires 0 <= i < |s| => Lower(s[i]))
  }

  /** Lower-casing twice is lower-casing once. */
  lemma LowerStringIdempotent(s: string)
    ensures LowerString(LowerString(s)) == LowerString(s)
  {
  }

  /** `needle` occurs as a contiguous part of `hay`. */
  predicate ContainsText(hay: string, needle: string) {
    exists i | 0 <= i <= |hay| - |needle| :: OccursAt(hay, needle, i)
  }

  /** A patient matches a term when the lower-cased term occurs in the lower-cased first name
      or either surname. */
  predicate Matches(u: UserRow, term: string) {
    var needle := LowerString(term);
    ContainsText(LowerString(u.firstName), needle) || ContainsText(LowerString(u.lastName1), needle)
    || ContainsText(LowerString(u.lastName2), needle)
  }

  /** Every patient matches the empty term. */
  lemma EmptyTermMatches(u: UserRow)
    ensures Matches(u, [])
  {
    var empty: string := [];
    assert LowerString(empty) == [];
    assert OccursAt(LowerString(u.firstName), LowerString(empty), 0);
  }

  /** Matching ignores the case of the term. */
  lemma MatchIgnoresCase(u: UserRow, term: string)
    ensures Matches(u, LowerString(term)) == Matches(u, term)
  {
    LowerStringIdempotent(term);
  }

  /** `a` is `b` with some elements left out, the rest kept in order. */
  predicate IsSubsequence<T(==)>(a: seq<T>, b: seq<T>)
    decreases |b|
  {
    if a == [] then true
    else if b == [] then false
    else if a[|a| - 1] == b[|b| - 1] then IsSubsequence(a[..|a| - 1], b[..|b| - 1])
    else IsSubsequence(a, b[..|b| - 1])
  }

  /** Keeping the same last element on both sides keeps a subsequence. */
  lemma KeepLast<T>(a: seq<T>, b: seq<T>, x: T)
    requires IsSubsequence(a, b)
    ensures IsSubsequence(a + [x], b + [x])
  {
  }

  /** Adding an element to the longer side keeps a subsequence. */
  lemma {:induction false} SkipLast<T>(a: seq<T>, b: seq<T>, x: T)
    requires IsSubsequence(a, b)
    ensures IsSubsequence(a, b + [x])
    decreases |b|, 1
  {
    assert (b + [x])[..|b|] == b;
    if a != [] && a[|a| - 1] == x {
      DropLast(a, b);
    }
  }

  /** Leaving out the last element of the shorter side keeps a subsequence. */
  lemma {:induction false} DropLast<T>(a: seq<T>, b: seq<T>)
    requires a != [] && IsSubsequence(a, b)
    ensures IsSubsequence(a[..|a| - 1], b)
    decreases |b|, 0
  {
    var b', y := b[..|b| - 1], b[|b| - 1];
    assert b == b' + [y];
    if a[|a| - 1] == y {
      SkipLast(a[..|a| - 1], b', y);
    } else {
      DropLast(a, b');
      SkipLast(a[..|a| - 1], b', y);
    }
  }

  /** The patients of `all` that match `term`, in list order, each as often as it occurs
      there. */
  function Kept(all: seq<UserRow>, term: string): (r: seq<UserRow>)
    ensures |r| <= |all|
    ensures forall u :: u in r <==> u in all && Matches(u, term)
  {
    if all == [] then []
    else
      var init, last := all[..|all| - 1], all[|all| - 1];
      assert all == init + [last];
      Kept(init, term) + (if Matches(last, term) then [last] else [])
  }

  /** Filtering keeps every occurrence of a matching patient and drops every occurrence of
      the others. */
  lemma {:induction false} KeptCounts(all: seq<UserRow>, term: string)
    ensures forall u :: multiset(Kept(all, term))[u] == if Matches(u, term) then multiset(all)[u] else 0
  {
    if all != [] {
      var init, last := all[..|all| - 1], all[|all| - 1];
      assert all == init + [last];
      KeptCounts(init, term);
    }
  }

  /** Filtering keeps the patients in list order. */
  lemma {:induction false} KeptIsSubsequence(all: seq<UserRow>, term: string)
    ensures IsSubsequence(Kept(all, term), all)
  {
    if all != [] {
      var init, last := all[..|all| - 1], all[|all| - 1];
      assert all == init + [last];
      KeptIsSubsequence(init, term);
      if Matches(last, term) {
        KeepLast(Kept(init, term), init, last);
      } else {
        SkipLast(Kept(init, term), init, last);
        assert Kept(init, term) + [] == Kept(init, term);
      }
    }
  }

  /** An empty term keeps the whole list. */
  lemma {:induction false} KeptEmptyTerm(all: seq<UserRow>)
    ensures Kept(all, []) == all
  {
    if all != [] {
      var init, last := all[..|all| - 1], all[|all| - 1];
      assert all == init + [last];
      KeptEmptyTerm(init);
      EmptyTermMatches(last);
    }
  }

  /** Filtering a list sorted by some order leaves it sorted by that order, and filtering a
      list without repeats adds none. */
  lemma {:induction false} KeptOrdered(le: (UserRow, UserRow) -> bool, all: seq<UserRow>, term: string)
    ensures SortedBy(le, all) ==> SortedBy(le, Kept(all, term))
    ensures NoDuplicates(all) ==> NoDuplicates(Kept(all, term))
  {
    if all != [] {
      var init, last := all[..|all| - 1], all[|all| - 1];
      assert all == init + [last];
      KeptOrdered(le, init, term);
      var k := Kept(init, term);
      if Matches(last, term) {
        var r := k + [last];
        if SortedBy(le, all) {
          assert SortedBy(le, init);
          forall i, j | 0 <= i < j < |r| ensures le(r[i], r[j]) {
            if j == |r| - 1 {
              assert r[i] in init;
              var m :| 0 <= m < |init| && init[m] == r[i];
              assert le(all[m], all[|all| - 1]);
            }
          }
        }
        if NoDuplicates(all) {
          assert NoDuplicates(init);
          assert last !in init;
          forall i, j | 0 <= i < j < |r| ensures r[i] != r[j] {
            if j == |r| - 1 {
              assert r[i] in init;
            }
          }
        }
      } else {
        assert k + [] == k;
        assert SortedBy(le, all) ==> SortedBy(le, init);
        assert NoDuplicates(all) ==> NoDuplicates(init);
      }
    }
  }

  /** The search loop of `loadUsersIntoTable`: the whole list for an empty term, otherwise the
      matching patients in list order. */
  method FilterUsers(allUsers: seq<UserRow>, searchTerm: string) returns (filteredUsers: seq<UserRow>)
    ensures filteredUsers == Kept(allUsers, searchTerm)
    ensures searchTerm == [] ==> filteredUsers == allUsers
    ensures forall u :: u in filteredUsers <==> u in allUsers && Matches(u, searchTerm)
    ensures IsSubsequence(filteredUsers, allUsers)
  {
    KeptIsSubsequence(allUsers, searchTerm);
    if searchTerm == [] {
      KeptEmptyTerm(allUsers);
      return allUsers;
    }
    filteredUsers := [];
    for i := 0 to |allUsers|
      invariant filteredUsers == Kept(allUsers[..i], searchTerm)
    {
      var user := allUsers[i];
      assert allUsers[..i + 1][..i] == allUsers[..i];
      if Matches(user, searchTerm) {
        filteredUsers := filteredUsers + [user];
      }
    }
    assert allUsers[..|allUsers|] == allUsers;
  }

  // ---------------------------------------------------------------- the window

  class MainWindowView {
    const userManager: UserManager

    constructor (userManager: UserManager)
      ensures this.userManager == userManager
    {
      this.userManager := userManager;
    }

    /** Add button: trim the names, reject the form when a required field is missing, and
        otherwise insert a new patient built from it. */
    method OnAddUserClicked(form: Form, execOk: bool, keyReadable: bool, now: DateTime)
      returns (added: bool)
      requires userManager.store.Valid()
      modifies userManager.store
      ensures userManager.store.Valid()
      ensures added <==> RequiredFieldsPresent(Cleaned(form)) && execOk && keyReadable
      ensures RequiredFieldsPresent(Cleaned(form)) && execOk ==>
        && userManager.store.lastUserId == old(userManager.store.lastUserId) + 1
        && userManager.store.lastUserId !in old(userManager.store.users)
        && userManager.store.users == old(userManager.store.users)[userManager.store.lastUserId :=
             NewRow(Cleaned(form), userManager.store.lastUserId, now)]
      ensures !(RequiredFieldsPresent(Cleaned(form)) && execOk) ==>
        && userManager.store.users == old(userManager.store.users)
        && userManager.store.lastUserId == old(userManager.store.lastUserId)
      ensures userManager.store.metrics == old(userManager.store.metrics)
      ensures userManager.store.lastMetricId == old(userManager.store.lastMetricId)
    {
      var firstName := Trimmed(form.firstName);
      var lastName1 := Trimmed(form.lastName1);
      var lastName2 := Trimmed(form.lastName2);
      var gender := form.gender;
      var birthDate := form.birthDate;
      var activityLevel := form.activityLevel;
      var goal := form.goal;

      if firstName == [] || lastName1 == [] || gender == [] || birthDate == NullDate || activityLevel == [] {
        return false;
      }

      var newUser := new User.New(firstName, lastName1, lastName2, gender, birthDate, activityLevel, goal);
      added := userManager.AddUser(newUser, execOk, keyReadable, now);
    }

    /** The rows the patient table shows: every stored patient matching the search term
        (all of them for an empty term), once each and ascending by first name; none when the
        query fails. */
    method LoadUsersIntoTable(searchTerm: string, execOk: bool) returns (shown: seq<UserRow>)
      requires userManager.store.Valid()
      ensures forall u :: u in shown <==>
        execOk && u.id in userManager.store.users && userManager.store.users[u.id] == u && Matches(u, searchTerm)
      ensures SortedBy(FirstNameLe, shown) && NoDuplicates(shown)
    {
      var allUsers := userManager.GetAllUsers(execOk);
      shown := FilterUsers(allUsers, searchTerm);
      KeptOrdered(FirstNameLe, allUsers, searchTerm);
    }

    /** Delete button: with a row selected and the question answered yes, delete the patient
        whose id that row holds, with all of that patient's measurements. */
    method OnDeleteUserClicked(currentRow: int, tableIds: seq<int>, confirmed: bool, execOk: bool)
      returns (deleted: bool)
      requires currentRow < |tableIds|
      requires userManager.store.Valid()
      modifies userManager.store
      ensures userManager.store.Valid()
      ensures deleted <==> && currentRow >= 0 && confirmed && execOk && tableIds[currentRow] > 0
                           && tableIds[currentRow] in old(userManager.store.users)
      ensures deleted ==> userManager.store.users == old(userManager.store.users) - {tableIds[currentRow]}
      ensures deleted ==>
        var gone := tableIds[currentRow];
        userManager.store.metrics ==
          map k | k in old(userManager.store.metrics) && old(userManager.store.metrics)[k].userId != gone
            :: old(userManager.store.metrics)[k]
      ensures deleted ==> forall k | k in userManager.store.metrics ::
        userManager.store.metrics[k].userId != tableIds[currentRow]
      ensures !deleted ==> userManager.store.users == old(userManager.store.users)
                           && userManager.store.metrics == old(userManager.store.metrics)
      ensures userManager.store.lastUserId == old(userManager.store.lastUserId)
              && userManager.store.lastMetricId == old(userManager.store.lastMetricId)
    {
      if currentRow < 0 {
        return false;
      }
      var userIdToDelete := tableIds[currentRow];
      if !confirmed {
        return false;
      }
      deleted := userManager.DeleteUser(userIdToDelete, execOk);
    }
  }
}
