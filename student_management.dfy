/**
  The student questions page: a Home tab and one tab per class. Each class
  tab lazily loads that class's questions, keeps an editable draft answer
  and visibility per question, and keeps an editable draft of the class's
  Zoom and recordings links. The per-class state lives in maps keyed by
  class id.
*/
module StudentManagement {
  import opened Optional
  import opened Remote
  import opened Text

  datatype ClassItem = ClassItem(id: int, name: string, zoomLink: Option<string>, recordingsLink: Option<string>)

  /** A question as `GET /questions` returns it; `answer` and `isPublic` may be null. */
  datatype QuestionItem = QuestionItem(id: int, question: string, answer: Option<string>, isPublic: Option<bool>,
                                       classId: int, studentId: int, published: bool)

  /** A question with its editable draft and its per-question saving flag. */
  datatype QuestionWithDraft = QuestionWithDraft(id: int, question: string, answer: Option<string>,
                                                 isPublic: Option<bool>, classId: int, studentId: int,
                                                 published: bool, draftAnswer: string, draftIsPublic: bool,
                                                 saving: bool)

  const ClassesError := "Failed to load classes."
  const QuestionsError := "Failed to load questions."

  // ---------------------------------------------------------------------------
  // Questions

  /** The mapping applied to each loaded question: the draft starts from the answer, public by default. */
  function WithDraft(q: QuestionItem): (r: QuestionWithDraft)
    ensures r.id == q.id && r.question == q.question && r.classId == q.classId
    ensures r.studentId == q.studentId && r.published == q.published && r.isPublic == q.isPublic
    ensures r.answer == Some(r.draftAnswer)
    ensures q.answer.Some? ==> r.draftAnswer == q.answer.value
    ensures q.answer.None? ==> r.draftAnswer == ""
    ensures r.draftIsPublic <==> q.isPublic != Some(false)
    ensures !r.saving
  {
    QuestionWithDraft(q.id, q.question, Some(q.answer.GetOr("")), q.isPublic, q.classId, q.studentId,
                      q.published, q.answer.GetOr(""), q.isPublic.GetOr(true), false)
  }

  /** `(data || []).map(...)`. */
  function LoadedQuestions(data: Option<seq<QuestionItem>>): (r: seq<QuestionWithDraft>)
    ensures data.None? ==> r == []
    ensures data.Some? ==> |r| == |data.value| && forall i :: 0 <= i < |r| ==> r[i] == WithDraft(data.value[i])
  {
    match data
    case None => []
    case Some(items) => seq(|items|, i requires 0 <= i < |items| => WithDraft(items[i]))
  }

  /**
    A `Partial<QuestionWithDraft>` as the page builds them: a field is
    overwritten when present. `answer` is itself nullable.
  */
  datatype QuestionPatch = QuestionPatch(answer: Option<Option<string>>, isPublic: Option<bool>,
                                         published: Option<bool>, draftAnswer: Option<string>,
                                         draftIsPublic: Option<bool>, saving: Option<bool>)

  const NoQuestionChange := QuestionPatch(None, None, None, None, None, None)

  /** `{ ...q, ...updates }`. */
  function ApplyQuestionPatch(q: QuestionWithDraft, p: QuestionPatch): (r: QuestionWithDraft)
    ensures r.id == q.id && r.question == q.question && r.classId == q.classId && r.studentId == q.studentId
    ensures r.answer == (if p.answer.Some? then p.answer.value else q.answer)
    ensures r.isPublic == (if p.isPublic.Some? then p.isPublic else q.isPublic)
    ensures r.published == p.published.GetOr(q.published)
    ensures r.draftAnswer == p.draftAnswer.GetOr(q.draftAnswer)
    ensures r.draftIsPublic == p.draftIsPublic.GetOr(q.draftIsPublic)
    ensures r.saving == p.saving.GetOr(q.saving)
  {
    q.(answer := if p.answer.Some? then p.answer.value else q.answer,
       isPublic := if p.isPublic.Some? then p.isPublic else q.isPublic,
       published := p.published.GetOr(q.published),
       draftAnswer := p.draftAnswer.GetOr(q.draftAnswer),
       draftIsPublic := p.draftIsPublic.GetOr(q.draftIsPublic),
       saving := p.saving.GetOr(q.saving))
  }

  /** `{ ...a, ...b }` on patches: a field of `b` wins over the same field of `a`. */
  function ThenQuestion(a: QuestionPatch, b: QuestionPatch): QuestionPatch {
    QuestionPatch(b.answer.OrElse(a.answer), b.isPublic.OrElse(a.isPublic), b.published.OrElse(a.published),
                  b.draftAnswer.OrElse(a.draftAnswer), b.draftIsPublic.OrElse(a.draftIsPublic),
                  b.saving.OrElse(a.saving))
  }

  /** Two successive spreads are one spread of the combined patch. */
  lemma ApplyQuestionPatchTwice(q: QuestionWithDraft, a: QuestionPatch, b: QuestionPatch)
    ensures ApplyQuestionPatch(ApplyQuestionPatch(q, a), b) == ApplyQuestionPatch(q, ThenQuestion(a, b))
  {
  }

  /** `current.map(q => q.id === questionId ? { ...q, ...updates } : q)`. */
  function PatchQuestions(qs: seq<QuestionWithDraft>, qid: int, p: QuestionPatch): (r: seq<QuestionWithDraft>)
    ensures |r| == |qs|
    ensures forall i :: 0 <= i < |qs| && qs[i].id == qid ==> r[i] == ApplyQuestionPatch(qs[i], p)
    ensures forall i :: 0 <= i < |qs| && qs[i].id != qid ==> r[i] == qs[i]
  {
    seq(|qs|, i requires 0 <= i < |qs| => if qs[i].id == qid then ApplyQuestionPatch(qs[i], p) else qs[i])
  }

  /** Patching the same question twice is patching it once with the combined patch. */
  lemma PatchQuestionsTwice(qs: seq<QuestionWithDraft>, qid: int, a: QuestionPatch, b: QuestionPatch)
    ensures PatchQuestions(PatchQuestions(qs, qid, a), qid, b) == PatchQuestions(qs, qid, ThenQuestion(a, b))
  {
    var l := PatchQuestions(PatchQuestions(qs, qid, a), qid, b);
    var r := PatchQuestions(qs, qid, ThenQuestion(a, b));
    forall i | 0 <= i < |qs| ensures l[i] == r[i] {
      if qs[i].id == qid {
        ApplyQuestionPatchTwice(qs[i], a, b);
      }
    }
  }

  /** `updateQuestionDraft`'s state update: nothing when the class is not loaded. */
  function UpdateQuestions(m: map<int, seq<QuestionWithDraft>>, classId: int, qid: int, p: QuestionPatch)
    : (r: map<int, seq<QuestionWithDraft>>)
    ensures classId !in m ==> r == m
    ensures classId in m ==> r == m[classId := PatchQuestions(m[classId], qid, p)]
  {
    if classId in m then m[classId := PatchQuestions(m[classId], qid, p)] else m
  }

  /** `classQuestions.find(qq => qq.id === questionId)`. */
  function FindQuestion(qs: seq<QuestionWithDraft>, qid: int): (r: Option<QuestionWithDraft>)
    ensures r.Some? ==> r.value in qs && r.value.id == qid
    ensures r.None? <==> forall i :: 0 <= i < |qs| ==> qs[i].id != qid
  {
    if qs == [] then None
    else if qs[0].id == qid then Some(qs[0])
    else FindQuestion(qs[1..], qid)
  }

  /** The question found is the first one with that id. */
  lemma {:induction false} FindQuestionFirst(qs: seq<QuestionWithDraft>, qid: int, i: nat)
    requires i < |qs| && qs[i].id == qid
    requires forall j :: 0 <= j < i ==> qs[j].id != qid
    ensures FindQuestion(qs, qid) == Some(qs[i])
  {
    if i > 0 {
      assert qs[0].id != qid;
      assert qs[1..][i - 1] == qs[i];
      FindQuestionFirst(qs[1..], qid, i - 1);
    }
  }

  /**
    `q.draftAnswer?.trim() ? q.draftAnswer : null`: the draft as typed when
    it has any non-whitespace character, otherwise null.
  */
  function PublishedAnswer(draft: string): (r: Option<string>)
    ensures r.Some? <==> !AllSpace(draft)
    ensures r.Some? ==> r.value == draft
  {
    if Trim(draft) != [] then Some(draft) else None
  }

  /** The body of `PUT /questions/:id`. */
  datatype PutQuestion = PutQuestion(id: int, answer: Option<string>, isPublic: bool, published: bool)

  function PublishRequest(q: QuestionWithDraft): (r: PutQuestion)
    ensures r.id == q.id && r.answer == PublishedAnswer(q.draftAnswer) && r.isPublic == q.draftIsPublic
    ensures r.published
  {
    PutQuestion(q.id, PublishedAnswer(q.draftAnswer), q.draftIsPublic, true)
  }

  /** The local update after a successful publish: the question mirrors what was sent. */
  function PublishedPatch(q: QuestionWithDraft): QuestionPatch {
    QuestionPatch(Some(PublishedAnswer(q.draftAnswer)), Some(q.draftIsPublic), Some(true), None, None, Some(false))
  }
  /**
    After a successful publish the question's own fields equal what the PUT
    carried, and the drafts are left as typed.
  */
  lemma PublishedMirrorsRequest(q: QuestionWithDraft, current: QuestionWithDraft)
    ensures var r, sent := ApplyQuestionPatch(current, PublishedPatch(q)), PublishRequest(q);
            && r.answer == sent.answer && r.isPublic == Some(sent.isPublic)
            && r.published == sent.published && !r.saving
            && r.draftAnswer == current.draftAnswer && r.draftIsPublic == current.draftIsPublic
  {
  }


  const SavingPatch := NoQuestionChange.(saving := Some(true))
  const SavedPatch := NoQuestionChange.(saving := Some(false))

  // ---------------------------------------------------------------------------
  // Link drafts

  /** The per-class links editor state. */
  datatype LinksDraft = LinksDraft(zoomLink: string, recordingsLink: string, saving: bool,
                                   savedMsg: Option<string>, errorMsg: Option<string>)

  const BlankDraft := LinksDraft("", "", false, None, None)

  const SavedMessage := "Saved \U{2705}"
  const LinksError := "Failed to save links. Please try again."

  /** The first draft of a class: its links, with a null or missing link as the empty string. */
  function DraftOf(c: ClassItem): (d: LinksDraft)
    ensures d.zoomLink == c.zoomLink.GetOr("") && d.recordingsLink == c.recordingsLink.GetOr("")
    ensures !d.saving && d.savedMsg == None && d.errorMsg == None
  {
    LinksDraft(c.zoomLink.GetOr(""), c.recordingsLink.GetOr(""), false, None, None)
  }

  /** The first class of the list with that id. */
  function FirstClass(list: seq<ClassItem>, id: int): (r: Option<ClassItem>)
    ensures r.Some? ==> r.value in list && r.value.id == id
    ensures r.None? <==> forall i :: 0 <= i < |list| ==> list[i].id != id
  {
    if list == [] then None
    else if list[0].id == id then Some(list[0])
    else FirstClass(list[1..], id)
  }
  /** The class found is the first of the list with that id. */
  lemma {:induction false} FirstClassFirst(list: seq<ClassItem>, id: int, i: nat)
    requires i < |list| && list[i].id == id
    requires forall j :: 0 <= j < i ==> list[j].id != id
    ensures FirstClass(list, id) == Some(list[i])
  {
    if i > 0 {
      assert list[0].id != id;
      assert list[1..][i - 1] == list[i];
      FirstClassFirst(list[1..], id, i - 1);
    }
  }


  /** The draft initialisation, class by class in list order: `if (!next[c.id]) next[c.id] = …`. */
  function InitDrafts(prev: map<int, LinksDraft>, list: seq<ClassItem>): map<int, LinksDraft>
    decreases |list|
  {
    if list == [] then prev
    else
      var next := if list[0].id in prev then prev else prev[list[0].id := DraftOf(list[0])];
      InitDrafts(next, list[1..])
  }

  /**
    After initialisation every listed class has a draft; an existing draft is
    kept; a new one comes from the first class with that id; no other class
    gets one.
  */
  lemma {:induction false} InitDraftsContents(prev: map<int, LinksDraft>, list: seq<ClassItem>, k: int)
    ensures var r := InitDrafts(prev, list);
            && (k in r <==> k in prev || FirstClass(list, k).Some?)
            && (k in prev ==> r[k] == prev[k])
            && (k !in prev && FirstClass(list, k).Some? ==> r[k] == DraftOf(FirstClass(list, k).value))
    decreases |list|
  {
    if list != [] {
      var next := if list[0].id in prev then prev else prev[list[0].id := DraftOf(list[0])];
      InitDraftsContents(next, list[1..], k);
    }
  }

  /** The `for (const c of list)` loop. */
  method InitDraftsLoop(prev: map<int, LinksDraft>, list: seq<ClassItem>) returns (next: map<int, LinksDraft>)
    ensures next == InitDrafts(prev, list)
  {
    next := prev;
    for i := 0 to |list|
      invariant InitDrafts(next, list[i..]) == InitDrafts(prev, list)
    {
      assert list[i..][1..] == list[i + 1..];
      if list[i].id !in next {
        next := next[list[i].id := DraftOf(list[i])];
      }
    }
  }

  /** A `Partial<ClassLinksDraft>`: a field is overwritten when present. */
  datatype LinksPatch = LinksPatch(zoomLink: Option<string>, recordingsLink: Option<string>, saving: Option<bool>,
                                   savedMsg: Option<Option<string>>, errorMsg: Option<Option<string>>)

  const NoLinksChange := LinksPatch(None, None, None, None, None)

  function ApplyLinksPatch(d: LinksDraft, p: LinksPatch): (r: LinksDraft)
    ensures r.zoomLink == p.zoomLink.GetOr(d.zoomLink) && r.recordingsLink == p.recordingsLink.GetOr(d.recordingsLink)
    ensures r.saving == p.saving.GetOr(d.saving)
    ensures r.savedMsg == (if p.savedMsg.Some? then p.savedMsg.value else d.savedMsg)
    ensures r.errorMsg == (if p.errorMsg.Some? then p.errorMsg.value else d.errorMsg)
  {
    LinksDraft(p.zoomLink.GetOr(d.zoomLink), p.recordingsLink.GetOr(d.recordingsLink), p.saving.GetOr(d.saving),
               if p.savedMsg.Some? then p.savedMsg.value else d.savedMsg,
               if p.errorMsg.Some? then p.errorMsg.value else d.errorMsg)
  }

  /** `updateLinksDraft`'s state update: the patch over the class's draft, or over a blank draft. */
  function MergeLinks(m: map<int, LinksDraft>, classId: int, p: LinksPatch): (r: map<int, LinksDraft>)
    ensures r.Keys == m.Keys + {classId}
    ensures forall k :: k in m && k != classId ==> r[k] == m[k]
    ensures classId in m ==> r[classId] == ApplyLinksPatch(m[classId], p)
    ensures classId !in m ==> r[classId] == ApplyLinksPatch(BlankDraft, p)
  {
    m[classId := ApplyLinksPatch(if classId in m then m[classId] else BlankDraft, p)]
  }

  /** A first edit of a class without a draft leaves every other field blank. */
  lemma MergeOverBlank(m: map<int, LinksDraft>, classId: int, zoom: string)
    requires classId !in m
    ensures MergeLinks(m, classId, NoLinksChange.(zoomLink := Some(zoom)))[classId] == BlankDraft.(zoomLink := zoom)
  {
  }

  /** `value.trim() || null`. */
  function TrimOrNull(s: string): (r: Option<string>)
    ensures r.None? <==> AllSpace(s)
    ensures r.Some? ==> r.value == Trim(s) && r.value != []
  {
    var t := Trim(s);
    if t == [] then None else Some(t)
  }

  /** Normalising a normalised link changes nothing. */
  lemma TrimOrNullIdempotent(s: string)
    requires TrimOrNull(s).Some?
    ensures TrimOrNull(TrimOrNull(s).value) == TrimOrNull(s)
  {
    TrimUnpadded(Trim(s));
  }

  /** What `PUT /classes/:id` returned: the saved links, when it returned a body. */
  datatype ServerLinks = ServerLinks(zoomLink: Option<string>, recordingsLink: Option<string>)

  /** The body of `PUT /classes/:id`. */
  datatype PutLinks = PutLinks(classId: int, zoomLink: Option<string>, recordingsLink: Option<string>)

  /** The class list kept in sync: the saved class takes the server's links, or the sent ones. */
  function SyncClass(classes: seq<ClassItem>, classId: int, updated: Option<ServerLinks>,
                     zoom: Option<string>, recordings: Option<string>): (r: seq<ClassItem>)
    ensures |r| == |classes|
    ensures forall i :: 0 <= i < |classes| && classes[i].id != classId ==> r[i] == classes[i]
    ensures forall i :: 0 <= i < |classes| && classes[i].id == classId ==>
              r[i].id == classId && r[i].name == classes[i].name &&
              r[i].zoomLink == (if updated.Some? && updated.value.zoomLink.Some? then updated.value.zoomLink else zoom) &&
              r[i].recordingsLink ==
                (if updated.Some? && updated.value.recordingsLink.Some? then updated.value.recordingsLink else recordings)
  {
    var z := (if updated.Some? then updated.value.zoomLink else None).OrElse(zoom);
    var rec := (if updated.Some? then updated.value.recordingsLink else None).OrElse(recordings);
    seq(|classes|, i requires 0 <= i < |classes| =>
      if classes[i].id == classId then classes[i].(zoomLink := z, recordingsLink := rec) else classes[i])
  }

  // ---------------------------------------------------------------------------
  // The page

  class StudentQuestionsPage {
    var classes: seq<ClassItem>
    var loadingClasses: bool
    var classError: Option<string>
    var activeTab: int
    var questionsByClass: map<int, seq<QuestionWithDraft>>
    var questionsLoading: map<int, bool>
    var questionsError: map<int, Option<string>>
    var linksByClass: map<int, LinksDraft>

    constructor ()
      ensures classes == [] && loadingClasses && classError == None && activeTab == 0
      ensures questionsByClass == map[] && questionsLoading == map[] && questionsError == map[]
      ensures linksByClass == map[]
    {
      classes := [];
      loadingClasses := true;
      classError := None;
      activeTab := 0;
      questionsByClass := map[];
      questionsLoading := map[];
      questionsError := map[];
      linksByClass := map[];
    }

    /** `loadClasses`: the list (a null body is none) and a draft for each class that has none. */
    method LoadClasses(outcome: Outcome<seq<ClassItem>>)
      modifies this
      ensures outcome.Returned? ==> classes == outcome.body.GetOr([]) && classError == old(classError)
      ensures outcome.Returned? ==> linksByClass == InitDrafts(old(linksByClass), classes)
      ensures outcome.Failed? ==> classes == old(classes) && linksByClass == old(linksByClass)
      ensures outcome.Failed? ==> classError == Some(ClassesError)
      ensures !loadingClasses && activeTab == old(activeTab)
      ensures questionsByClass == old(questionsByClass) && questionsLoading == old(questionsLoading)
      ensures questionsError == old(questionsError)
    {
      loadingClasses := true;
      match outcome {
        case Returned(body) =>
          var list := body.GetOr([]);
          classes := list;
          linksByClass := InitDraftsLoop(linksByClass, list);
        case Failed =>
          classError := Some(ClassesError);
      }
      loadingClasses := false;
    }

    /** The guard of `ensureQuestionsLoaded`: the class's questions are present or being loaded. */
    predicate QuestionsPresentOrLoading(classId: int)
      reads this
    {
      classId in questionsByClass || (classId in questionsLoading && questionsLoading[classId])
    }

    /**
      The synchronous part of `ensureQuestionsLoaded`: nothing when the guard
      holds; otherwise the class is marked loading with no error, and the
      questions request goes out (`started`).
    */
    method StartQuestionsLoad(classId: int) returns (started: bool)
      modifies this
      ensures started <==> !old(QuestionsPresentOrLoading(classId))
      ensures started ==> questionsLoading == old(questionsLoading)[classId := true]
      ensures started ==> questionsError == old(questionsError)[classId := None]
      ensures !started ==> questionsLoading == old(questionsLoading) && questionsError == old(questionsError)
      ensures questionsByClass == old(questionsByClass) && classes == old(classes)
      ensures linksByClass == old(linksByClass) && activeTab == old(activeTab)
      ensures loadingClasses == old(loadingClasses) && classError == old(classError)
    {
      if QuestionsPresentOrLoading(classId) {
        return false;
      }
      questionsLoading := questionsLoading[classId := true];
      questionsError := questionsError[classId := None];
      started := true;
    }

    /** The rest of `ensureQuestionsLoaded`, once the request settles. */
    method FinishQuestionsLoad(classId: int, outcome: Outcome<seq<QuestionItem>>)
      modifies this
      ensures outcome.Returned? ==>
                questionsByClass == old(questionsByClass)[classId := LoadedQuestions(outcome.body)] &&
                questionsError == old(questionsError)
      ensures outcome.Failed? ==>
                questionsByClass == old(questionsByClass) &&
                questionsError == old(questionsError)[classId := Some(QuestionsError)]
      ensures questionsLoading == old(questionsLoading)[classId := false]
      ensures classes == old(classes) && linksByClass == old(linksByClass) && activeTab == old(activeTab)
      ensures loadingClasses == old(loadingClasses) && classError == old(classError)
    {
      match outcome {
        case Returned(body) =>
          questionsByClass := questionsByClass[classId := LoadedQuestions(body)];
        case Failed =>
          questionsError := questionsError[classId := Some(QuestionsError)];
      }
      questionsLoading := questionsLoading[classId := false];
    }

    /**
      `handleTabClick`: the tab becomes active; tab i > 0 is the class at
      i - 1, whose questions start loading when that class exists.
      `load` is the class whose request went out.
    */
    method HandleTabClick(index: int) returns (load: Option<int>)
      modifies this
      ensures activeTab == index
      ensures questionsByClass == old(questionsByClass) && classes == old(classes)
      ensures (index <= 0 || index - 1 >= |classes|) ==>
                load == None && questionsLoading == old(questionsLoading) && questionsError == old(questionsError)
      ensures load.Some? ==> 0 < index <= |classes| && load.value == classes[index - 1].id
      ensures 0 < index <= |classes| ==>
                (load.Some? <==> !old(QuestionsPresentOrLoading(classes[index - 1].id)))
      ensures load.None? ==> questionsLoading == old(questionsLoading) && questionsError == old(questionsError)
      ensures load.Some? ==>
                questionsLoading == old(questionsLoading)[load.value := true] &&
                questionsError == old(questionsError)[load.value := None]
      ensures linksByClass == old(linksByClass)
      ensures loadingClasses == old(loadingClasses) && classError == old(classError)
    {
      activeTab := index;
      load := None;
      if index > 0 && index - 1 < |classes| {
        var id := classes[index - 1].id;
        var started := StartQuestionsLoad(id);
        if started {
          load := Some(id);
        }
      }
    }

    /** `updateQuestionDraft`. */
    method UpdateQuestionDraft(classId: int, qid: int, p: QuestionPatch)
      modifies this
      ensures questionsByClass == UpdateQuestions(old(questionsByClass), classId, qid, p)
      ensures questionsLoading == old(questionsLoading) && questionsError == old(questionsError)
      ensures classes == old(classes) && linksByClass == old(linksByClass) && activeTab == old(activeTab)
      ensures loadingClasses == old(loadingClasses) && classError == old(classError)
    {
      questionsByClass := UpdateQuestions(questionsByClass, classId, qid, p);
    }

    /**
      `handlePublishOrUpdate`: nothing for a class that is not loaded or an
      unknown question. Otherwise the first question with that id is sent
      with its trimmed-or-null draft answer, its draft visibility and
      `published: true`; on success every question with that id mirrors what
      was sent, on failure only its saving flag is cleared.
    */
    method HandlePublishOrUpdate(classId: int, qid: int, succeeded: bool) returns (put: Option<PutQuestion>)
      modifies this
      ensures classId !in old(questionsByClass) ==> put == None && questionsByClass == old(questionsByClass)
      ensures classId in old(questionsByClass) ==>
                var qs := old(questionsByClass)[classId];
                var found := FindQuestion(qs, qid);
                && (found.None? ==> put == None && questionsByClass == old(questionsByClass))
                && (found.Some? ==> put == Some(PublishRequest(found.value)))
                && (found.Some? && succeeded ==>
                      questionsByClass == old(questionsByClass)[classId := PatchQuestions(qs, qid, PublishedPatch(found.value))])
                && (found.Some? && !succeeded ==>
                      questionsByClass == old(questionsByClass)[classId := PatchQuestions(qs, qid, SavedPatch)])
      ensures questionsLoading == old(questionsLoading) && questionsError == old(questionsError)
      ensures classes == old(classes) && linksByClass == old(linksByClass) && activeTab == old(activeTab)
      ensures loadingClasses == old(loadingClasses) && classError == old(classError)
    {
      if classId !in questionsByClass {
        return None;
      }
      var qs := questionsByClass[classId];
      var found := FindQuestion(qs, qid);
      if found.None? {
        return None;
      }
      var q := found.value;
      UpdateQuestionDraft(classId, qid, SavingPatch);
      put := Some(PublishRequest(q));
      var final := if succeeded then PublishedPatch(q) else SavedPatch;
      UpdateQuestionDraft(classId, qid, final);
      PatchQuestionsTwice(qs, qid, SavingPatch, final);
      assert ThenQuestion(SavingPatch, final) == final;
    }

    /** `updateLinksDraft`. */
    method UpdateLinksDraft(classId: int, p: LinksPatch)
      modifies this
      ensures linksByClass == MergeLinks(old(linksByClass), classId, p)
      ensures classes == old(classes) && questionsByClass == old(questionsByClass) && activeTab == old(activeTab)
      ensures questionsLoading == old(questionsLoading) && questionsError == old(questionsError)
      ensures loadingClasses == old(loadingClasses) && classError == old(classError)
    {
      linksByClass := MergeLinks(linksByClass, classId, p);
    }

    /** The delayed callback after a successful save: the saved message is cleared. */
    method ClearSavedMessage(classId: int)
      modifies this
      ensures linksByClass == MergeLinks(old(linksByClass), classId, NoLinksChange.(savedMsg := Some(None)))
      ensures classes == old(classes) && questionsByClass == old(questionsByClass) && activeTab == old(activeTab)
      ensures questionsLoading == old(questionsLoading) && questionsError == old(questionsError)
      ensures loadingClasses == old(loadingClasses) && classError == old(classError)
    {
      UpdateLinksDraft(classId, NoLinksChange.(savedMsg := Some(None)));
    }

    /**
      `handleSaveLinks`: nothing for a class without a draft. Otherwise each
      link is sent trimmed, or null when blank; on success the class in the
      list takes the server's links (or the sent ones) and the draft shows
      the saved message; on failure the draft shows the error. The saving
      flag is cleared either way and no other class changes.
    */
    method HandleSaveLinks(classId: int, outcome: Outcome<ServerLinks>) returns (put: Option<PutLinks>)
      modifies this
      ensures classId !in old(linksByClass) ==>
                put == None && linksByClass == old(linksByClass) && classes == old(classes)
      ensures classId in old(linksByClass) ==>
                var d := old(linksByClass)[classId];
                var zoom := TrimOrNull(d.zoomLink);
                var recordings := TrimOrNull(d.recordingsLink);
                && put == Some(PutLinks(classId, zoom, recordings))
                && linksByClass.Keys == old(linksByClass).Keys
                && (forall k :: k in old(linksByClass) && k != classId ==> linksByClass[k] == old(linksByClass)[k])
                && (outcome.Returned? ==>
                      classes == SyncClass(old(classes), classId, outcome.body, zoom, recordings) &&
                      linksByClass[classId] == d.(saving := false, savedMsg := Some(SavedMessage), errorMsg := None))
                && (outcome.Failed? ==>
                      classes == old(classes) &&
                      linksByClass[classId] == d.(saving := false, savedMsg := None, errorMsg := Some(LinksError)))
      ensures questionsByClass == old(questionsByClass) && activeTab == old(activeTab)
      ensures questionsLoading == old(questionsLoading) && questionsError == old(questionsError)
      ensures loadingClasses == old(loadingClasses) && classError == old(classError)
    {
      if classId !in linksByClass {
        return None;
      }
      var draft := linksByClass[classId];
      UpdateLinksDraft(classId, NoLinksChange.(saving := Some(true), savedMsg := Some(None), errorMsg := Some(None)));
      var zoom := TrimOrNull(draft.zoomLink);
      var recordings := TrimOrNull(draft.recordingsLink);
      put := Some(PutLinks(classId, zoom, recordings));
      match outcome {
        case Returned(updated) =>
          classes := SyncClass(classes, classId, updated, zoom, recordings);
          UpdateLinksDraft(classId, NoLinksChange.(saving := Some(false), savedMsg := Some(Some(SavedMessage))));
        case Failed =>
          UpdateLinksDraft(classId, NoLinksChange.(saving := Some(false), errorMsg := Some(Some(LinksError))));
      }
    }
  }
}
