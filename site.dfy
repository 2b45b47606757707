/** The shared in-memory stores of the application and the request and
    socket handlers that read and append to them. The static tables `rules`
    (topic or branch to rule strings) and `knowledge_areas` (topic to
    branches) come from a data module whose contents are not part of this
    model; they are constructor inputs and never change. */
module Site {
  import opened Logs
  import Exam

  class Community {
    const rules: Store
    const knowledgeAreas: Store
    var researchPapers: Store
    var chatHistory: Store

    constructor (rules: Store, knowledgeAreas: Store, researchPapers: Store, chatHistory: Store)
      ensures this.rules == rules && this.knowledgeAreas == knowledgeAreas
      ensures this.researchPapers == researchPapers && this.chatHistory == chatHistory
    {
      this.rules := rules;
      this.knowledgeAreas := knowledgeAreas;
      this.researchPapers := researchPapers;
      this.chatHistory := chatHistory;
    }

    /** POST /knowledge_base: the branches and the rules listed for a topic,
        both empty when the topic is unknown. */
    method KnowledgeBase(chosen: string) returns (branches: seq<string>, importantRules: seq<string>)
      ensures chosen in knowledgeAreas ==> branches == knowledgeAreas[chosen]
      ensures chosen !in knowledgeAreas ==> branches == []
      ensures chosen in rules ==> importantRules == rules[chosen]
      ensures chosen !in rules ==> importantRules == []
    {
      branches := Get(knowledgeAreas, chosen);
      importantRules := Get(rules, chosen);
    }

    /** POST /branch: the rules listed for a branch, empty when unknown. */
    method Branch(chosen: string) returns (importantRules: seq<string>)
      ensures chosen in rules ==> importantRules == rules[chosen]
      ensures chosen !in rules ==> importantRules == []
    {
      importantRules := Get(rules, chosen);
    }

    /** POST /publish_research: the content, whatever it is (the empty
        string included), becomes the last note of the branch; no other
        branch and no other store changes. */
    method PublishResearch(branch: string, content: string)
      modifies this`researchPapers
      ensures researchPapers == Appended(old(researchPapers), branch, content)
      ensures branch in researchPapers && researchPapers[branch] == Get(old(researchPapers), branch) + [content]
      ensures forall k :: k != branch ==> Get(researchPapers, k) == Get(old(researchPapers), k)
    {
      researchPapers := Appended(researchPapers, branch, content);
    }

    /** GET /view_research/<area>: the notes of an area, empty when none. */
    method ViewResearch(area: string) returns (papers: seq<string>)
      ensures area in researchPapers ==> papers == researchPapers[area]
      ensures area !in researchPapers ==> papers == []
    {
      papers := Get(researchPapers, area);
    }

    /** GET /view_branch_research/<branch>: the notes of a branch, empty
        when none. */
    method ViewBranchResearch(branch: string) returns (papers: seq<string>)
      ensures branch in researchPapers ==> papers == researchPapers[branch]
      ensures branch !in researchPapers ==> papers == []
    {
      papers := Get(researchPapers, branch);
    }

    /** The socket `message` event: `msg` becomes the last entry of the
        chat log of `uid`; no other log and no other store changes. The
        live broadcast to the room is not part of this model. */
    method HandleMessage(uid: string, msg: string)
      modifies this`chatHistory
      ensures chatHistory == Appended(old(chatHistory), uid, msg)
      ensures uid in chatHistory && chatHistory[uid] == Get(old(chatHistory), uid) + [msg]
      ensures forall k :: k != uid ==> Get(chatHistory, k) == Get(old(chatHistory), k)
    {
      chatHistory := Appended(chatHistory, uid, msg);
    }

    /** The chat log shown for `uid` on the chat page, empty when none. */
    method ChatLog(uid: string) returns (messages: seq<string>)
      ensures uid in chatHistory ==> messages == chatHistory[uid]
      ensures uid !in chatHistory ==> messages == []
    {
      messages := Get(chatHistory, uid);
    }
  }

  /** Two successive messages for one user, starting from any state: the
      log ends with both, in the order they were sent, and the research
      notes are untouched. */
  method TwoMessages(c: Community, uid: string, first: string, second: string)
    modifies c`chatHistory
    ensures Get(c.chatHistory, uid) == Get(old(c.chatHistory), uid) + [first, second]
    ensures c.chatHistory == AppendedAll(old(c.chatHistory), uid, [first, second])
    ensures c.researchPapers == old(c.researchPapers)
  {
    ghost var start := c.chatHistory;
    c.HandleMessage(uid, first);
    c.HandleMessage(uid, second);
    assert [first, second][..1] == [first];
    assert [first][..0] == [];
    assert AppendedAll(start, uid, [first]) == Appended(start, uid, first);
  }

  /** POST /exam_system against the application's one rule table: the
      quiz samples from the same `rules` the knowledge-base and branch
      pages list. */
  method StartExam(c: Community, session: Exam.ExamSession, topic: string) returns (redirected: bool)
    requires session.Valid()
    modifies session
    ensures session.Valid()
    ensures redirected <==> topic in c.rules
    ensures topic in c.rules ==> && session.started && session.currentQuestion == 0 && session.score == 0
                                 && Exam.IsSampleOf(session.questions, c.rules[topic], Exam.Min(Exam.QuestionLimit, |c.rules[topic]|))
    ensures topic !in c.rules ==> unchanged(session)
  {
    redirected := session.ExamSystem(c.rules, topic);
  }
}
