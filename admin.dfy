/**
 * The selection logic of the teacher dashboard: turning stored reflection
 * documents into submission records, the date, class and student filter
 * lists, the three-way filter, the handlers that change the filters, and
 * deleting a submission.
 */
module Admin {
  import opened Wrappers
  import opened Text

  // ---------------------------------------------------------------------------
  // Records
  // ---------------------------------------------------------------------------

  datatype ChatMessage = ChatMessage(role: string, content: string)

  /**
   * A stored reflection document. `date` and `time` are its creation time as
   * already formatted (`YYYY-MM-DD` and `HH:MM`); `chatMessages` is `None`
   * when the stored value is not an array.
   */
  datatype StoredDoc = StoredDoc(
    id: string,
    date: string,
    time: string,
    studentClass: Option<string>,
    studentName: Option<string>,
    projectCodePath: Option<string>,
    chatMessages: Option<seq<ChatMessage>>)

  /** One row of the dashboard. */
  datatype Submission = Submission(
    id: string,
    date: string,
    className: string,
    userName: string,
    submittedAt: string,
    projectCodePath: Option<string>,
    reflectionText: string,
    drawingUrl: Option<string>)

  const UnassignedClass := "미지정"
  const UnnamedStudent := "이름 없음"
  const NoReflection := "수업 성찰 내용이 아직 충분히 기록되지 않았습니다."
  const ReflectionSeparator := "\n\n"

  /** `value || fallback` on a string that may be absent: absent and empty both fall back. */
  function OrElse(value: Option<string>, fallback: string): string {
    if value.Some? && value.value != "" then value.value else fallback
  }

  /** The role of every message, in order. */
  function Roles(msgs: seq<ChatMessage>): (r: seq<string>)
    ensures |r| == |msgs| && forall i :: 0 <= i < |msgs| ==> r[i] == msgs[i].role
  {
    seq(|msgs|, i requires 0 <= i < |msgs| => msgs[i].role)
  }

  /** The contents of the messages whose role is `user`, in order. */
  function UserContents(msgs: seq<ChatMessage>): seq<string>
    decreases |msgs|
  {
    if |msgs| == 0 then []
    else (if msgs[0].role == "user" then [msgs[0].content] else []) + UserContents(msgs[1..])
  }

  /** One content per user message. */
  lemma {:induction false} UserContentsCount(msgs: seq<ChatMessage>)
    ensures |UserContents(msgs)| == multiset(Roles(msgs))["user"]
    decreases |msgs|
  {
    if |msgs| > 0 {
      UserContentsCount(msgs[1..]);
      assert Roles(msgs) == [msgs[0].role] + Roles(msgs[1..]);
    }
  }

  /** A content is kept iff some user message carries it. */
  lemma {:induction false} UserContentsMembers(msgs: seq<ChatMessage>, c: string)
    ensures c in UserContents(msgs) <==> exists m :: m in msgs && m.role == "user" && m.content == c
    decreases |msgs|
  {
    if |msgs| > 0 {
      UserContentsMembers(msgs[1..], c);
      assert msgs == [msgs[0]] + msgs[1..];
      if c !in UserContents(msgs) {
        forall m | m in msgs && m.role == "user" ensures m.content != c {
          if m != msgs[0] {
            assert m in msgs[1..];
          }
        }
      }
    }
  }

  /** When every message is the student's, every content is kept in place. */
  lemma {:induction false} UserContentsAllUser(msgs: seq<ChatMessage>)
    requires forall i :: 0 <= i < |msgs| ==> msgs[i].role == "user"
    ensures |UserContents(msgs)| == |msgs|
    ensures forall i :: 0 <= i < |msgs| ==> UserContents(msgs)[i] == msgs[i].content
    decreases |msgs|
  {
    if |msgs| > 0 {
      UserContentsAllUser(msgs[1..]);
    }
  }

  /** Selecting user messages works message by message: it keeps their order. */
  lemma {:induction false} UserContentsConcat(a: seq<ChatMessage>, b: seq<ChatMessage>)
    ensures UserContents(a + b) == UserContents(a) + UserContents(b)
    decreases |a|
  {
    if |a| > 0 {
      assert (a + b)[1..] == a[1..] + b;
      UserContentsConcat(a[1..], b);
    } else {
      assert a + b == b;
    }
  }

  /** The reflection text: the user messages joined by a blank line, or the placeholder. */
  function ReflectionText(chat: Option<seq<ChatMessage>>): (r: string)
    ensures chat.None? ==> r == NoReflection
    ensures chat.Some? && |UserContents(chat.value)| > 0 ==>
              r == Join(UserContents(chat.value), ReflectionSeparator)
    ensures chat.Some? && |UserContents(chat.value)| == 0 ==> r == NoReflection
  {
    var user := if chat.Some? then UserContents(chat.value) else [];
    if |user| > 0 then Join(user, ReflectionSeparator) else NoReflection
  }

  /** A reflection with one more user message gains a blank line and that message. */
  lemma ReflectionTextAppend(msgs: seq<ChatMessage>, content: string)
    requires |UserContents(msgs)| > 0
    ensures ReflectionText(Some(msgs + [ChatMessage("user", content)])) ==
            ReflectionText(Some(msgs)) + ReflectionSeparator + content
  {
    UserContentsConcat(msgs, [ChatMessage("user", content)]);
    assert UserContents([ChatMessage("user", content)]) == [content];
    JoinSnoc(UserContents(msgs), content, ReflectionSeparator);
  }

  /** The record the dashboard builds from one stored document. */
  function ToSubmission(d: StoredDoc): (r: Submission)
    ensures r.id == d.id && r.date == d.date && r.submittedAt == d.time && r.drawingUrl == None
    ensures r.className != "" && r.userName != ""
    ensures d.studentClass.Some? && d.studentClass.value != "" ==> r.className == d.studentClass.value
    ensures d.studentClass.None? || d.studentClass == Some("") ==> r.className == UnassignedClass
    ensures d.studentName.Some? && d.studentName.value != "" ==> r.userName == d.studentName.value
    ensures d.studentName.None? || d.studentName == Some("") ==> r.userName == UnnamedStudent
    ensures r.projectCodePath.Some? <==> d.projectCodePath.Some? && d.projectCodePath.value != ""
    ensures r.projectCodePath.Some? ==> r.projectCodePath == d.projectCodePath
    ensures r.reflectionText == ReflectionText(d.chatMessages)
  {
    Submission(
      d.id, d.date,
      OrElse(d.studentClass, UnassignedClass),
      OrElse(d.studentName, UnnamedStudent),
      d.time,
      if d.projectCodePath.Some? && d.projectCodePath.value != "" then d.projectCodePath else None,
      ReflectionText(d.chatMessages),
      None)
  }

  /** All loaded records, in the order the documents arrived. */
  function LoadSubmissions(docs: seq<StoredDoc>): (r: seq<Submission>)
    ensures |r| == |docs|
    ensures forall i :: 0 <= i < |docs| ==> r[i] == ToSubmission(docs[i])
  {
    seq(|docs|, i requires 0 <= i < |docs| => ToSubmission(docs[i]))
  }

  // ---------------------------------------------------------------------------
  // Filter option lists
  // ---------------------------------------------------------------------------

  function Dates(subs: seq<Submission>): seq<string> {
    seq(|subs|, i requires 0 <= i < |subs| => subs[i].date)
  }

  function Classes(subs: seq<Submission>): seq<string> {
    seq(|subs|, i requires 0 <= i < |subs| => subs[i].className)
  }

  function UserNames(subs: seq<Submission>): seq<string> {
    seq(|subs|, i requires 0 <= i < |subs| => subs[i].userName)
  }

  /** The date checkboxes: every date that occurs, once each, in ascending order. */
  function UniqueDates(subs: seq<Submission>): (r: seq<string>)
    ensures StrictlySorted(r)
    ensures forall x :: x in r <==> exists i :: 0 <= i < |subs| && subs[i].date == x
  {
    var r := SortedDistinct(Dates(subs));
    assert forall x :: x in Dates(subs) <==> exists i :: 0 <= i < |subs| && subs[i].date == x by {
      forall x ensures x in Dates(subs) <==> exists i :: 0 <= i < |subs| && subs[i].date == x {
        if x in Dates(subs) {
          var i :| 0 <= i < |Dates(subs)| && Dates(subs)[i] == x;
          assert subs[i].date == x;
        }
        if exists i :: 0 <= i < |subs| && subs[i].date == x {
          var i :| 0 <= i < |subs| && subs[i].date == x;
          assert Dates(subs)[i] == x;
        }
      }
    }
    r
  }

  /** The class checkboxes: every class name that occurs, once each, in ascending order. */
  function UniqueClasses(subs: seq<Submission>): (r: seq<string>)
    ensures StrictlySorted(r)
    ensures forall x :: x in r <==> exists i :: 0 <= i < |subs| && subs[i].className == x
  {
    var r := SortedDistinct(Classes(subs));
    assert forall x :: x in Classes(subs) <==> exists i :: 0 <= i < |subs| && subs[i].className == x by {
      forall x ensures x in Classes(subs) <==> exists i :: 0 <= i < |subs| && subs[i].className == x {
        if x in Classes(subs) {
          var i :| 0 <= i < |Classes(subs)| && Classes(subs)[i] == x;
          assert subs[i].className == x;
        }
        if exists i :: 0 <= i < |subs| && subs[i].className == x {
          var i :| 0 <= i < |subs| && subs[i].className == x;
          assert Classes(subs)[i] == x;
        }
      }
    }
    r
  }

  // ---------------------------------------------------------------------------
  // The three-way filter
  // ---------------------------------------------------------------------------

  /** An empty date set admits every date. */
  predicate DateOk(s: Submission, dates: set<string>) {
    |dates| == 0 || s.date in dates
  }

  /** An empty class set admits every class. */
  predicate ClassOk(s: Submission, classes: set<string>) {
    |classes| == 0 || s.className in classes
  }

  /** No user filter (or the falsy empty name) admits every student. */
  predicate UserOk(s: Submission, user: Option<string>) {
    user.None? || user.value == "" || s.userName == user.value
  }

  /** The test `getFilteredSubmissions` applies to each submission. */
  predicate Passes(s: Submission, dates: set<string>, classes: set<string>, user: Option<string>) {
    DateOk(s, dates) && ClassOk(s, classes) && UserOk(s, user)
  }

  /** `subs.filter(...)`: the passing submissions, one at a time from the front. */
  function FilterPassing(subs: seq<Submission>, dates: set<string>, classes: set<string>,
                         user: Option<string>): seq<Submission>
    decreases |subs|
  {
    if |subs| == 0 then []
    else if Passes(subs[0], dates, classes, user) then [subs[0]] + FilterPassing(subs[1..], dates, classes, user)
    else FilterPassing(subs[1..], dates, classes, user)
  }

  /**
   * The submissions the list shows: exactly those passing all three filters,
   * each as often as in `subs`, in their original order.
   */
  function FilteredSubmissions(subs: seq<Submission>, dates: set<string>, classes: set<string>,
                               user: Option<string>): (r: seq<Submission>)
    ensures IsSubsequence(r, subs)
    ensures forall i :: 0 <= i < |r| ==> Passes(r[i], dates, classes, user)
    ensures forall s :: s in subs && Passes(s, dates, classes, user) ==> s in r
    ensures forall s :: multiset(r)[s] == if Passes(s, dates, classes, user) then multiset(subs)[s] else 0
  {
    FilterPassingSubsequence(subs, dates, classes, user);
    FilterPassingAllPass(subs, dates, classes, user);
    FilterPassingCounts(subs, dates, classes, user);
    FilterPassing(subs, dates, classes, user)
  }

  lemma {:induction false} FilterPassingSubsequence(subs: seq<Submission>, dates: set<string>,
                                                    classes: set<string>, user: Option<string>)
    ensures IsSubsequence(FilterPassing(subs, dates, classes, user), subs)
    decreases |subs|
  {
    if |subs| > 0 {
      var rest := FilterPassing(subs[1..], dates, classes, user);
      FilterPassingSubsequence(subs[1..], dates, classes, user);
      if Passes(subs[0], dates, classes, user) {
        assert ([subs[0]] + rest)[1..] == rest;
      }
    }
  }

  lemma {:induction false} FilterPassingAllPass(subs: seq<Submission>, dates: set<string>,
                                                classes: set<string>, user: Option<string>)
    ensures forall i :: 0 <= i < |FilterPassing(subs, dates, classes, user)| ==>
              Passes(FilterPassing(subs, dates, classes, user)[i], dates, classes, user)
    decreases |subs|
  {
    if |subs| > 0 {
      FilterPassingAllPass(subs[1..], dates, classes, user);
    }
  }

  lemma {:induction false} FilterPassingCounts(subs: seq<Submission>, dates: set<string>,
                                               classes: set<string>, user: Option<string>)
    ensures forall s :: multiset(FilterPassing(subs, dates, classes, user))[s] ==
              if Passes(s, dates, classes, user) then multiset(subs)[s] else 0
    decreases |subs|
  {
    if |subs| > 0 {
      FilterPassingCounts(subs[1..], dates, classes, user);
      assert subs == [subs[0]] + subs[1..];
      assert multiset(subs) == multiset([subs[0]]) + multiset(subs[1..]);
    }
  }

  /** A submission the filter shows is one of the dashboard's own. */
  lemma FilteredKeepsId(subs: seq<Submission>, dates: set<string>, classes: set<string>,
                        user: Option<string>, id: string)
    requires FindIndexById(FilteredSubmissions(subs, dates, classes, user), id) >= 0
    ensures FindIndexById(subs, id) >= 0
  {
    var shown := FilteredSubmissions(subs, dates, classes, user);
    var s := shown[FindIndexById(shown, id)];
    assert multiset(shown)[s] > 0;
    var j :| 0 <= j < |subs| && subs[j] == s;
  }

  /** With no date, class or user filter every submission is shown. */
  lemma {:induction false} NoFiltersShowAll(subs: seq<Submission>)
    ensures FilteredSubmissions(subs, {}, {}, None) == subs
    decreases |subs|
  {
    if |subs| > 0 {
      NoFiltersShowAll(subs[1..]);
    }
  }

  /**
   * The student buttons: the distinct names, in ascending order, of the
   * submissions passing the date and class filters; the user filter plays
   * no part.
   */
  function UsersForDatesAndClasses(subs: seq<Submission>, dates: set<string>,
                                   classes: set<string>): (r: seq<string>)
    ensures StrictlySorted(r)
    ensures forall n :: n in r <==>
              exists i :: 0 <= i < |subs| && DateOk(subs[i], dates) && ClassOk(subs[i], classes)
                                          && subs[i].userName == n
  {
    var shown := FilteredSubmissions(subs, dates, classes, None);
    var r := SortedDistinct(UserNames(shown));
    forall n ensures n in r <==>
      exists i :: 0 <= i < |subs| && DateOk(subs[i], dates) && ClassOk(subs[i], classes)
                                  && subs[i].userName == n
    {
      if n in r {
        var k :| 0 <= k < |shown| && UserNames(shown)[k] == n;
        assert shown[k] in subs by { assert multiset(shown)[shown[k]] > 0; }
        var i :| 0 <= i < |subs| && subs[i] == shown[k];
        assert Passes(subs[i], dates, classes, None);
      }
      if exists i :: 0 <= i < |subs| && DateOk(subs[i], dates) && ClassOk(subs[i], classes)
                                      && subs[i].userName == n {
        var i :| 0 <= i < |subs| && DateOk(subs[i], dates) && ClassOk(subs[i], classes)
                                  && subs[i].userName == n;
        assert Passes(subs[i], dates, classes, None);
        assert subs[i] in shown;
        var k :| 0 <= k < |shown| && shown[k] == subs[i];
        assert UserNames(shown)[k] == n;
      }
    }
    r
  }

  /** Whatever the user filter, every student in the list has a button. */
  lemma UsersCoverFiltered(subs: seq<Submission>, dates: set<string>, classes: set<string>,
                           user: Option<string>, s: Submission)
    requires s in FilteredSubmissions(subs, dates, classes, user)
    ensures s.userName in UsersForDatesAndClasses(subs, dates, classes)
  {
    var shown := FilteredSubmissions(subs, dates, classes, user);
    assert multiset(shown)[s] > 0;
    var i :| 0 <= i < |subs| && subs[i] == s;
  }

  /** The list shown afterwards clears the selection when it turns out empty. */
  function SelectionAfterRender(subs: seq<Submission>, dates: set<string>, classes: set<string>,
                                user: Option<string>, selected: Option<string>): Option<string> {
    if |FilteredSubmissions(subs, dates, classes, user)| == 0 then None else selected
  }

  // ---------------------------------------------------------------------------
  // Filter handlers
  // ---------------------------------------------------------------------------

  /** A checkbox change: checking adds the value to the filter set, unchecking removes it. */
  function ToggledFilter(active: set<string>, value: string, checked: bool): (r: set<string>)
    ensures forall v :: v in r <==> if v == value then checked else v in active
  {
    if checked then active + {value} else active - {value}
  }

  /** A student-button click: the active name is cleared, any other name becomes active. */
  function NextUserFilter(current: Option<string>, name: string): (r: Option<string>)
    ensures r.None? <==> current == Some(name)
    ensures r.Some? ==> r == Some(name)
  {
    if current == Some(name) then None else Some(name)
  }

  /** Two clicks on one button restore the filter exactly when it was off or on that name. */
  lemma ClickTwice(current: Option<string>, name: string)
    ensures NextUserFilter(NextUserFilter(current, name), name) == current <==>
            current.None? || current == Some(name)
  {
  }

  // ---------------------------------------------------------------------------
  // Deleting by id
  // ---------------------------------------------------------------------------

  /** `findIndex` by id: the first position holding `id`, or -1. */
  function FindIndexById(subs: seq<Submission>, id: string): (k: int)
    ensures -1 <= k < |subs|
    ensures k >= 0 ==> subs[k].id == id && forall j :: 0 <= j < k ==> subs[j].id != id
    ensures k == -1 ==> forall j :: 0 <= j < |subs| ==> subs[j].id != id
    decreases |subs|
  {
    if |subs| == 0 then -1
    else if subs[0].id == id then 0
    else
      var k := FindIndexById(subs[1..], id);
      if k == -1 then -1 else k + 1
  }

  /** `splice` of the first submission with `id`; the others keep their order. */
  function RemoveFirstById(subs: seq<Submission>, id: string): (r: seq<Submission>)
    ensures IsSubsequence(r, subs)
    ensures FindIndexById(subs, id) == -1 ==> r == subs
    ensures FindIndexById(subs, id) >= 0 ==>
              |r| == |subs| - 1 &&
              multiset(r) + multiset{subs[FindIndexById(subs, id)]} == multiset(subs)
    ensures forall s :: s in subs && s.id != id ==> s in r
    decreases |subs|
  {
    if |subs| == 0 then subs
    else if subs[0].id == id then
      assert subs == [subs[0]] + subs[1..];
      IsSubsequenceRefl(subs[1..]);
      subs[1..]
    else
      var rest := RemoveFirstById(subs[1..], id);
      assert subs == [subs[0]] + subs[1..];
      [subs[0]] + rest
  }

  /** `splice(index, 1)` exactly: the list before the first match, then the list after it. */
  lemma {:induction false} RemoveFirstByIdSplice(subs: seq<Submission>, id: string)
    requires FindIndexById(subs, id) >= 0
    ensures RemoveFirstById(subs, id) ==
            subs[..FindIndexById(subs, id)] + subs[FindIndexById(subs, id) + 1..]
    decreases |subs|
  {
    if subs[0].id != id {
      var tail := subs[1..];
      var k := FindIndexById(tail, id);
      assert FindIndexById(subs, id) == k + 1;
      assert RemoveFirstById(subs, id) == [subs[0]] + RemoveFirstById(tail, id);
      RemoveFirstByIdSplice(tail, id);
      SpliceCons(subs, k);
    }
  }

  /** Splicing past the head splices the tail. */
  lemma SpliceCons<T>(s: seq<T>, k: nat)
    requires k + 1 < |s|
    ensures s[..k + 1] + s[k + 2..] == [s[0]] + (s[1..][..k] + s[1..][k + 1..])
  {
    assert s[..k + 1] == [s[0]] + s[1..][..k];
    assert s[k + 2..] == s[1..][k + 1..];
  }

  /** Submissions are told apart by their document ids. */
  ghost predicate UniqueIds(subs: seq<Submission>) {
    forall i, j :: 0 <= i < j < |subs| ==> subs[i].id != subs[j].id
  }

  /** No two fetched documents share an id, as in one document collection. */
  ghost predicate DistinctDocIds(docs: seq<StoredDoc>) {
    forall i, j :: 0 <= i < j < |docs| ==> docs[i].id != docs[j].id
  }

  /** Loading keeps the ids: the records have unique ids iff the documents do. */
  lemma LoadedIdsUnique(docs: seq<StoredDoc>)
    ensures UniqueIds(LoadSubmissions(docs)) <==> DistinctDocIds(docs)
  {
    var subs := LoadSubmissions(docs);
    if DistinctDocIds(docs) {
      forall i, j | 0 <= i < j < |subs| ensures subs[i].id != subs[j].id {
        assert subs[i].id == docs[i].id && subs[j].id == docs[j].id;
      }
    }
    if UniqueIds(subs) {
      forall i, j | 0 <= i < j < |docs| ensures docs[i].id != docs[j].id {
        assert subs[i].id == docs[i].id && subs[j].id == docs[j].id;
      }
    }
  }

  /** With unique ids, deleting an id leaves no submission with that id. */
  lemma {:induction false} RemoveFirstByIdRemovesId(subs: seq<Submission>, id: string)
    requires UniqueIds(subs)
    ensures forall s :: s in RemoveFirstById(subs, id) ==> s.id != id
    decreases |subs|
  {
    if |subs| > 0 {
      if subs[0].id != id {
        assert UniqueIds(subs[1..]);
        RemoveFirstByIdRemovesId(subs[1..], id);
      } else {
        forall s | s in subs[1..] ensures s.id != id {
          var j :| 0 <= j < |subs[1..]| && subs[1..][j] == s;
          assert subs[j + 1] == s;
        }
      }
    }
  }

  /**
   * As written, the delete handler splices its own filtered copy of the list:
   * that copy loses one record, while the dashboard list `subs` is left as it
   * was, so once every filter is reset the deleted id is shown again.
   */
  lemma DeletedSubmissionStillShown(subs: seq<Submission>, dates: set<string>, classes: set<string>,
                                    user: Option<string>, id: string)
    requires FindIndexById(FilteredSubmissions(subs, dates, classes, user), id) >= 0
    ensures var local := FilteredSubmissions(subs, dates, classes, user);
            |RemoveFirstById(local, id)| == |local| - 1
    ensures FilteredSubmissions(subs, {}, {}, None) == subs
    ensures FindIndexById(FilteredSubmissions(subs, {}, {}, None), id) >= 0
  {
    FilteredKeepsId(subs, dates, classes, user, id);
    NoFiltersShowAll(subs);
  }

  /** Deleting from the dashboard's own list removes the submission from view. */
  lemma DeletedSubmissionGone(subs: seq<Submission>, id: string)
    requires UniqueIds(subs)
    ensures FindIndexById(FilteredSubmissions(RemoveFirstById(subs, id), {}, {}, None), id) == -1
  {
    RemoveFirstByIdRemovesId(subs, id);
    NoFiltersShowAll(RemoveFirstById(subs, id));
  }

  // ---------------------------------------------------------------------------
  // The dashboard's state and its handlers
  // ---------------------------------------------------------------------------

  class Dashboard {
    var submissions: seq<Submission>
    var activeDates: set<string>
    var activeClasses: set<string>
    var activeUser: Option<string>
    var selectedId: Option<string>

    constructor ()
      ensures submissions == [] && activeDates == {} && activeClasses == {}
      ensures activeUser == None && selectedId == None
    {
      submissions := [];
      activeDates := {};
      activeClasses := {};
      activeUser := None;
      selectedId := None;
    }

    /** The submissions the list panel shows. */
    function Visible(): seq<Submission>
      reads this
    {
      FilteredSubmissions(submissions, activeDates, activeClasses, activeUser)
    }

    /** Re-rendering the list clears the selection when nothing is shown. */
    method RenderSubmissionList()
      modifies this
      ensures selectedId == SelectionAfterRender(submissions, activeDates, activeClasses,
                                                 activeUser, old(selectedId))
      ensures submissions == old(submissions) && activeDates == old(activeDates)
      ensures activeClasses == old(activeClasses) && activeUser == old(activeUser)
    {
      if |Visible()| == 0 {
        selectedId := None;
      }
    }

    /**
     * Loading the documents: `None` stands for a failed query, which leaves
     * the state alone; otherwise the records replace the list and every
     * filter and the selection are reset.
     */
    method Load(fetched: Option<seq<StoredDoc>>)
      modifies this
      ensures fetched.None? ==> unchanged(this)
      ensures fetched.Some? ==> submissions == LoadSubmissions(fetched.value)
      ensures fetched.Some? ==> activeDates == {} && activeClasses == {} && activeUser == None
      ensures fetched.Some? ==> selectedId == None
      ensures fetched.Some? ==> (UniqueIds(submissions) <==> DistinctDocIds(fetched.value))
    {
      if fetched.Some? {
        LoadedIdsUnique(fetched.value);
        submissions := LoadSubmissions(fetched.value);
        activeDates := {};
        activeClasses := {};
        activeUser := None;
        selectedId := None;
        RenderSubmissionList();
      }
    }

    /** A date checkbox changed; the class set and the user filter stay as they were. */
    method ChangeDateCheckbox(value: string, checked: bool)
      modifies this
      ensures activeDates == ToggledFilter(old(activeDates), value, checked)
      ensures activeClasses == old(activeClasses) && activeUser == old(activeUser)
      ensures submissions == old(submissions)
      ensures selectedId == SelectionAfterRender(submissions, activeDates, activeClasses,
                                                 activeUser, old(selectedId))
    {
      if checked {
        activeDates := activeDates + {value};
      } else {
        activeDates := activeDates - {value};
      }
      RenderSubmissionList();
    }

    /** A class checkbox changed; the date set and the user filter stay as they were. */
    method ChangeClassCheckbox(value: string, checked: bool)
      modifies this
      ensures activeClasses == ToggledFilter(old(activeClasses), value, checked)
      ensures activeDates == old(activeDates) && activeUser == old(activeUser)
      ensures submissions == old(submissions)
      ensures selectedId == SelectionAfterRender(submissions, activeDates, activeClasses,
                                                 activeUser, old(selectedId))
    {
      if checked {
        activeClasses := activeClasses + {value};
      } else {
        activeClasses := activeClasses - {value};
      }
      RenderSubmissionList();
    }

    /** A student button was clicked. */
    method ClickUser(name: string)
      modifies this
      ensures activeUser == NextUserFilter(old(activeUser), name)
      ensures activeDates == old(activeDates) && activeClasses == old(activeClasses)
      ensures submissions == old(submissions)
      ensures selectedId == SelectionAfterRender(submissions, activeDates, activeClasses,
                                                 activeUser, old(selectedId))
    {
      if activeUser == Some(name) {
        activeUser := None;
      } else {
        activeUser := Some(name);
      }
      RenderSubmissionList();
    }

    /** A submission row was clicked. */
    method SelectSubmission(id: string)
      modifies this
      ensures selectedId == SelectionAfterRender(submissions, activeDates, activeClasses,
                                                 activeUser, Some(id))
      ensures submissions == old(submissions) && activeDates == old(activeDates)
      ensures activeClasses == old(activeClasses) && activeUser == old(activeUser)
    {
      selectedId := Some(id);
      RenderSubmissionList();
    }

    /** What every successful delete does to the filters and the selection. */
    method ResetAfterDelete(id: string)
      modifies this
      ensures activeDates == {} && activeClasses == {} && activeUser == None
      ensures submissions == old(submissions)
      ensures selectedId == SelectionAfterRender(submissions, {}, {}, None,
                                                 if old(selectedId) == Some(id) then None
                                                 else old(selectedId))
    {
      if selectedId == Some(id) {
        selectedId := None;
      }
      activeDates := {};
      activeClasses := {};
      activeUser := None;
      RenderSubmissionList();
    }

    /**
     * The delete button AS WRITTEN. `confirmed` is the answer to the
     * confirmation dialog and `removedRemotely` whether the stored document
     * was deleted. The splice acts on the handler's own copy of the shown
     * list (returned as `local`), not on `submissions`, so after the filters
     * are reset the deleted submission is listed again.
     */
    method DeleteSubmissionAsWritten(id: string, confirmed: bool, removedRemotely: bool)
      returns (deleted: bool, local: seq<Submission>)
      modifies this
      ensures deleted <==> FindIndexById(old(Visible()), id) >= 0 && confirmed && removedRemotely
      ensures submissions == old(submissions)
      ensures !deleted ==> unchanged(this) && local == old(Visible())
      ensures deleted ==> local == RemoveFirstById(old(Visible()), id)
      ensures deleted ==> activeDates == {} && activeClasses == {} && activeUser == None
      ensures deleted ==> Visible() == old(submissions)
      ensures deleted ==> FindIndexById(Visible(), id) >= 0
      ensures deleted ==> selectedId == SelectionAfterRender(submissions, {}, {}, None,
                                                             if old(selectedId) == Some(id) then None
                                                             else old(selectedId))
    {
      local := Visible();
      deleted := false;
      var k := FindIndexById(local, id);
      if k == -1 || !confirmed || !removedRemotely {
        return;
      }
      FilteredKeepsId(submissions, activeDates, activeClasses, activeUser, id);
      local := RemoveFirstById(local, id);
      deleted := true;
      ResetAfterDelete(id);
      NoFiltersShowAll(submissions);
    }

    /**
     * The delete button as intended: the submission is removed from the
     * dashboard's own list, so it is no longer shown.
     */
    method DeleteSubmission(id: string, confirmed: bool, removedRemotely: bool)
      returns (deleted: bool)
      requires UniqueIds(submissions)
      modifies this
      ensures deleted <==> FindIndexById(old(Visible()), id) >= 0 && confirmed && removedRemotely
      ensures !deleted ==> unchanged(this)
      ensures deleted ==> submissions == RemoveFirstById(old(submissions), id)
      ensures deleted ==> activeDates == {} && activeClasses == {} && activeUser == None
      ensures deleted ==> UniqueIds(submissions) && FindIndexById(Visible(), id) == -1
      ensures deleted ==> selectedId == SelectionAfterRender(submissions, {}, {}, None,
                                                             if old(selectedId) == Some(id) then None
                                                             else old(selectedId))
    {
      deleted := false;
      var k := FindIndexById(Visible(), id);
      if k == -1 || !confirmed || !removedRemotely {
        return;
      }
      ghost var before := submissions;
      submissions := RemoveFirstById(submissions, id);
      deleted := true;
      ResetAfterDelete(id);
      DeletedSubmissionGone(before, id);
      RemoveFirstByIdKeepsUniqueIds(before, id);
    }
  }

  /** Deleting keeps the ids unique. */
  lemma {:induction false} RemoveFirstByIdKeepsUniqueIds(subs: seq<Submission>, id: string)
    requires UniqueIds(subs)
    ensures UniqueIds(RemoveFirstById(subs, id))
    decreases |subs|
  {
    if |subs| > 0 && subs[0].id != id {
      assert UniqueIds(subs[1..]);
      RemoveFirstByIdKeepsUniqueIds(subs[1..], id);
      var rest := RemoveFirstById(subs[1..], id);
      forall j | 0 <= j < |rest| ensures rest[j].id != subs[0].id {
        assert rest[j] in subs[1..] by { SubsequenceMembers(rest, subs[1..], rest[j]); }
      }
    } else if |subs| > 0 {
      assert UniqueIds(subs[1..]);
    }
  }

  /** An element of a subsequence is an element of the whole. */
  lemma {:induction false} SubsequenceMembers<T>(a: seq<T>, b: seq<T>, x: T)
    requires IsSubsequence(a, b) && x in a
    ensures x in b
    decreases |b|
  {
    if a[0] == b[0] && IsSubsequence(a[1..], b[1..]) {
      if x != a[0] {
        SubsequenceMembers(a[1..], b[1..], x);
      }
    } else {
      SubsequenceMembers(a, b[1..], x);
    }
  }
}
