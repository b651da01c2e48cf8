/**
 * The `useNotes` hook: the signed-in user's notes, kept newest first in memory
 * and in browser storage under the key "notes_" + username.
 *
 * Timestamps are the milliseconds `new Date(iso).getTime()` yields for the
 * stored ISO strings; ids and clock readings are passed in.
 */
module UseNotes {
  import opened Wrappers
  import AuthContext

  datatype Note = Note(id: string, title: string, content: string, createdAt: int, updatedAt: int)

  /** What `localStorage.getItem` can return for a notes key that is present. */
  datatype StoredEntry =
    | Blank                        // the empty string: falsy, ignored like a missing entry
    | Unparsable                   // text on which `JSON.parse(...).sort(...)` throws
    | Serialized(notes: seq<Note>) // `JSON.stringify` of a note array

  const KeyPrefix := "notes_"

  /** `getStorageKey`: the prefix "notes_" followed by the whole username. */
  function StorageKey(username: string): (key: string)
    ensures |key| == |KeyPrefix| + |username|
    ensures key[..|KeyPrefix|] == KeyPrefix && key[|KeyPrefix|..] == username
  {
    KeyPrefix + username
  }

  /** Different users never share a storage entry. */
  lemma StorageKeyInjective(u: string, v: string)
    requires StorageKey(u) == StorageKey(v)
    ensures u == v
  {
    assert u == StorageKey(u)[|KeyPrefix|..];
    assert v == StorageKey(v)[|KeyPrefix|..];
  }

  /** A notes entry never overwrites the account table or the remembered user. */
  lemma StorageKeyAvoidsAuthKeys(u: string)
    ensures StorageKey(u) != AuthContext.UsersKey
    ensures StorageKey(u) != AuthContext.CurrentUserKey
  {
    assert StorageKey(u)[5] == '_';
    assert AuthContext.UsersKey[5] == 'U';
    assert AuthContext.CurrentUserKey[5] == 'C';
  }

  // ---------------------------------------------------------------------
  // The order every write stores: `sort((a, b) => b.updatedAt - a.updatedAt)`.
  // JavaScript's sort is stable, so notes updated at the same instant keep
  // their relative order; the insertion sort below is the stable sort.

  predicate NewestFirst(s: seq<Note>) {
    forall i, j :: 0 <= i < j < |s| ==> s[i].updatedAt >= s[j].updatedAt
  }

  /** Puts `x` before the first note of `s` that is not newer than it. */
  function Insert(x: Note, s: seq<Note>): (r: seq<Note>)
    ensures multiset(r) == multiset(s) + multiset{x}
    ensures NewestFirst(s) ==> NewestFirst(r)
  {
    if s == [] || s[0].updatedAt <= x.updatedAt then
      [x] + s
    else
      var rest := Insert(x, s[1..]);
      InsertStep(x, s, rest);
      [s[0]] + rest
  }

  /** One step of the insertion: `x` goes after the first note of `s`. */
  lemma InsertStep(x: Note, s: seq<Note>, rest: seq<Note>)
    requires s != [] && s[0].updatedAt > x.updatedAt
    requires multiset(rest) == multiset(s[1..]) + multiset{x}
    requires NewestFirst(s[1..]) ==> NewestFirst(rest)
    ensures multiset([s[0]] + rest) == multiset(s) + multiset{x}
    ensures NewestFirst(s) ==> NewestFirst([s[0]] + rest)
  {
    assert s == [s[0]] + s[1..];
    if NewestFirst(s) {
      assert NewestFirst(s[1..]);
      forall n | n in rest ensures s[0].updatedAt >= n.updatedAt {
        assert n in multiset(rest);
        if n != x {
          assert n in multiset(s[1..]);
          assert n in s[1..];
        }
      }
      NewerThanAll(s[0], rest);
    }
  }

  /** The list sorted newest first: a sorted permutation of its input. */
  function SortNewestFirst(s: seq<Note>): (r: seq<Note>)
    ensures multiset(r) == multiset(s)
    ensures NewestFirst(r)
  {
    if s == [] then
      []
    else
      assert s == [s[0]] + s[1..];
      Insert(s[0], SortNewestFirst(s[1..]))
  }

  /** The notes of `s` updated at instant `t`, in their order in `s`. */
  function UpdatedAt(s: seq<Note>, t: int): seq<Note> {
    if s == [] then [] else (if s[0].updatedAt == t then [s[0]] else []) + UpdatedAt(s[1..], t)
  }

  lemma {:induction false} InsertKeepsTies(x: Note, s: seq<Note>, t: int)
    ensures UpdatedAt(Insert(x, s), t) == (if x.updatedAt == t then [x] else []) + UpdatedAt(s, t)
  {
    var hx: seq<Note> := if x.updatedAt == t then [x] else [];
    if s == [] || s[0].updatedAt <= x.updatedAt {
      assert ([x] + s)[0] == x;
      assert ([x] + s)[1..] == s;
    } else {
      var r := Insert(x, s[1..]);
      var h0: seq<Note> := if s[0].updatedAt == t then [s[0]] else [];
      assert ([s[0]] + r)[0] == s[0];
      assert ([s[0]] + r)[1..] == r;
      InsertKeepsTies(x, s[1..], t);
      assert UpdatedAt(Insert(x, s), t) == h0 + (hx + UpdatedAt(s[1..], t));
      assert h0 == [] || hx == [];
      assert UpdatedAt(s, t) == h0 + UpdatedAt(s[1..], t);
    }
  }

  /** Stability: notes with equal timestamps come out in the order they went in. */
  lemma {:induction false} SortIsStable(s: seq<Note>, t: int)
    ensures UpdatedAt(SortNewestFirst(s), t) == UpdatedAt(s, t)
  {
    if s != [] {
      SortIsStable(s[1..], t);
      InsertKeepsTies(s[0], SortNewestFirst(s[1..]), t);
    }
  }

  /** Sorting a list that is already newest first leaves it as it is. */
  lemma {:induction false} SortOfSorted(s: seq<Note>)
    requires NewestFirst(s)
    ensures SortNewestFirst(s) == s
  {
    if s != [] {
      assert NewestFirst(s[1..]);
      SortOfSorted(s[1..]);
      assert s == [s[0]] + s[1..];
    }
  }

  // ---------------------------------------------------------------------
  // The list transformations `updateNote` and `deleteNote` hand to `saveNotes`.

  /**
   * `notes.map(...)` in `updateNote`: every note with the id gets the new
   * title, content and update time and keeps its id and creation time; every
   * other note is kept as it is, in place.
   */
  function ApplyEdit(s: seq<Note>, id: string, title: string, content: string, now: int): (r: seq<Note>)
    ensures |r| == |s|
    ensures forall i :: 0 <= i < |s| && s[i].id != id ==> r[i] == s[i]
    ensures forall i :: 0 <= i < |s| && s[i].id == id ==>
              r[i] == Note(s[i].id, title, content, s[i].createdAt, now)
  {
    if s == [] then
      []
    else
      var head := if s[0].id == id then s[0].(title := title, content := content, updatedAt := now) else s[0];
      [head] + ApplyEdit(s[1..], id, title, content, now)
  }

  /**
   * `notes.filter(note => note.id !== id)`: no note with the id is left, and
   * every other note is kept as often as it occurred, in its order
   * (`WithoutIdAppend`).
   */
  function WithoutId(s: seq<Note>, id: string): (r: seq<Note>)
    ensures forall n :: multiset(r)[n] == if n.id == id then 0 else multiset(s)[n]
    ensures forall n :: n in r <==> n in s && n.id != id
    ensures NewestFirst(s) ==> NewestFirst(r)
  {
    if s == [] then
      []
    else
      var rest := WithoutId(s[1..], id);
      var head := if s[0].id == id then [] else [s[0]];
      WithoutIdStep(s, id, head, rest);
      head + rest
  }

  /** One step of the filter: what keeping or dropping the first note does. */
  lemma WithoutIdStep(s: seq<Note>, id: string, head: seq<Note>, rest: seq<Note>)
    requires s != []
    requires head == if s[0].id == id then [] else [s[0]]
    requires forall n :: multiset(rest)[n] == if n.id == id then 0 else multiset(s[1..])[n]
    requires forall n :: n in rest <==> n in s[1..] && n.id != id
    requires NewestFirst(s[1..]) ==> NewestFirst(rest)
    ensures forall n :: multiset(head + rest)[n] == if n.id == id then 0 else multiset(s)[n]
    ensures forall n :: n in head + rest <==> n in s && n.id != id
    ensures NewestFirst(s) ==> NewestFirst(head + rest)
  {
    assert s == [s[0]] + s[1..];
    assert multiset(s) == multiset{s[0]} + multiset(s[1..]);
    assert multiset(head + rest) == multiset(head) + multiset(rest);
    forall n ensures multiset(head + rest)[n] == if n.id == id then 0 else multiset(s)[n] {
      assert multiset(head + rest)[n] == multiset(head)[n] + multiset(rest)[n];
      assert multiset(s)[n] == multiset{s[0]}[n] + multiset(s[1..])[n];
    }
    forall n ensures n in head + rest <==> n in s && n.id != id {
      assert n in head + rest <==> n in head || n in rest;
      assert n in s <==> n == s[0] || n in s[1..];
    }
    if NewestFirst(s) && head != [] {
      assert NewestFirst(s[1..]);
      NewerThanAll(s[0], rest);
    }
  }

  /** A note at least as new as every note of a newest-first list can lead it. */
  lemma NewerThanAll(x: Note, s: seq<Note>)
    requires NewestFirst(s)
    requires forall n :: n in s ==> x.updatedAt >= n.updatedAt
    ensures NewestFirst([x] + s)
  {
    forall i, j | 0 <= i < j < |[x] + s| ensures ([x] + s)[i].updatedAt >= ([x] + s)[j].updatedAt {
      if i == 0 {
        assert ([x] + s)[j] == s[j - 1];
        assert s[j - 1] in s;
      }
    }
  }

  /**
   * The filter works note by note: the notes kept from `a + b` are those kept
   * from `a` followed by those kept from `b`, so the survivors keep their order.
   */
  lemma {:induction false} WithoutIdAppend(a: seq<Note>, b: seq<Note>, id: string)
    ensures WithoutId(a + b, id) == WithoutId(a, id) + WithoutId(b, id)
  {
    if a == [] {
      assert a + b == b;
    } else {
      assert (a + b)[0] == a[0];
      assert (a + b)[1..] == a[1..] + b;
      WithoutIdAppend(a[1..], b, id);
    }
  }

  /** Editing an id no note carries changes nothing. */
  lemma EditOfAbsentId(s: seq<Note>, id: string, title: string, content: string, now: int)
    requires forall n :: n in s ==> n.id != id
    ensures ApplyEdit(s, id, title, content, now) == s
  {
    var r := ApplyEdit(s, id, title, content, now);
    assert forall i :: 0 <= i < |s| ==> r[i] == s[i];
  }

  // ---------------------------------------------------------------------

  /**
   * The state of one `useNotes` instance: the `notes` state and the part of
   * browser storage that holds notes lists. The in-memory list is always
   * newest first.
   */
  class NotesStore {
    var notes: seq<Note>
    var storage: map<string, StoredEntry>
    /** The signed-in user the hook reads from the auth context. */
    var username: Option<string>

    ghost predicate Valid()
      reads this
    {
      NewestFirst(notes)
    }

    /** The first render: an empty list and no user yet. */
    constructor(initialStorage: map<string, StoredEntry>)
      ensures Valid()
      ensures notes == [] && storage == initialStorage && username == None
    {
      notes := [];
      storage := initialStorage;
      username := None;
    }

    /**
     * The load effect, run when the signed-in user becomes `user`: a stored
     * list replaces the in-memory one, sorted newest first; an entry that does
     * not parse empties it; a missing or empty entry, or no user, leaves it.
     */
    method Load(user: Option<string>)
      requires Valid()
      modifies this`notes, this`username
      ensures Valid() && username == user
      ensures !AuthContext.IsTruthy(user) ==> notes == old(notes)
      ensures AuthContext.IsTruthy(user) ==>
        var key := StorageKey(user.value);
        && (key !in storage || storage[key].Blank? ==> notes == old(notes))
        && (key in storage && storage[key].Unparsable? ==> notes == [])
        && (key in storage && storage[key].Serialized? ==> notes == SortNewestFirst(storage[key].notes))
    {
      username := user;
      if AuthContext.IsTruthy(user) {
        var key := StorageKey(user.value);
        if key in storage && !storage[key].Blank? {
          match storage[key]
          case Unparsable =>
            notes := [];
          case Serialized(stored) =>
            notes := SortNewestFirst(stored);
        }
      }
    }

    /**
     * `saveNotes`: with a user signed in, the list is sorted newest first,
     * written to that user's entry and made the in-memory list; other entries
     * are untouched. Without a user nothing changes.
     */
    method SaveNotes(newNotes: seq<Note>)
      modifies this`notes, this`storage
      ensures Valid() || !AuthContext.IsTruthy(username)
      ensures AuthContext.IsTruthy(username) ==>
        && notes == SortNewestFirst(newNotes)
        && storage == old(storage)[StorageKey(username.value) := Serialized(notes)]
      ensures !AuthContext.IsTruthy(username) ==> notes == old(notes) && storage == old(storage)
    {
      if AuthContext.IsTruthy(username) {
        var sorted := SortNewestFirst(newNotes);
        storage := storage[StorageKey(username.value) := Serialized(sorted)];
        notes := sorted;
      }
    }

    /**
     * `createNote`: builds the note from the fresh id, the inputs and two clock
     * readings, and saves the list with it appended. The note is returned even
     * when no user is signed in and nothing is saved.
     */
    method CreateNote(id: string, title: string, content: string, createdAt: int, updatedAt: int)
        returns (note: Note)
      requires Valid()
      modifies this`notes, this`storage
      ensures Valid()
      ensures note == Note(id, title, content, createdAt, updatedAt)
      ensures AuthContext.IsTruthy(username) ==>
        && notes == SortNewestFirst(old(notes) + [note])
        && |notes| == |old(notes)| + 1
        && multiset(notes) == multiset(old(notes)) + multiset{note}
        && storage == old(storage)[StorageKey(username.value) := Serialized(notes)]
      ensures !AuthContext.IsTruthy(username) ==> notes == old(notes) && storage == old(storage)
    {
      note := Note(id, title, content, createdAt, updatedAt);
      SaveNotes(notes + [note]);
      assert |multiset(notes)| == |notes|;
      assert |multiset(old(notes) + [note])| == |old(notes)| + 1;
    }

    /**
     * `updateNote`: saves the list with every note carrying the id edited, so
     * the length is kept and only those notes change.
     */
    method UpdateNote(id: string, title: string, content: string, now: int)
      requires Valid()
      modifies this`notes, this`storage
      ensures Valid()
      ensures AuthContext.IsTruthy(username) ==>
        && notes == SortNewestFirst(ApplyEdit(old(notes), id, title, content, now))
        && |notes| == |old(notes)|
        && storage == old(storage)[StorageKey(username.value) := Serialized(notes)]
      ensures !AuthContext.IsTruthy(username) ==> notes == old(notes) && storage == old(storage)
    {
      SaveNotes(ApplyEdit(notes, id, title, content, now));
      assert |multiset(notes)| == |notes|;
    }

    /**
     * `deleteNote`: saves the list without the notes carrying the id. The list
     * is already newest first, so the survivors keep their order.
     */
    method DeleteNote(id: string)
      requires Valid()
      modifies this`notes, this`storage
      ensures Valid()
      ensures AuthContext.IsTruthy(username) ==>
        && notes == WithoutId(old(notes), id)
        && (forall n :: n in notes <==> n in old(notes) && n.id != id)
        && storage == old(storage)[StorageKey(username.value) := Serialized(notes)]
      ensures !AuthContext.IsTruthy(username) ==> notes == old(notes) && storage == old(storage)
    {
      var kept := WithoutId(notes, id);
      SortOfSorted(kept);
      SaveNotes(kept);
    }
  }

  /**
   * What a write stores is what a later load reads back: after `saveNotes`,
   * loading the same user's entry leaves the list unchanged.
   */
  method ReloadAfterSave(store: NotesStore, newNotes: seq<Note>)
    requires AuthContext.IsTruthy(store.username)
    modifies store
    ensures store.notes == SortNewestFirst(newNotes)
  {
    store.SaveNotes(newNotes);
    SortOfSorted(store.notes);
    store.Load(store.username);
  }
}
