/** The pure parts of the second bot: its link, the delete confirmation,
    its creation forms, and what it keeps of a parsed form. Its share-link
    check is `ShareLinks.IsValidShareLinkAsWritten`. */
module SecondBot {
  import opened Wrappers
  import opened PyStr
  import opened Json
  import opened Buttons
  import MainBot

  /** The bot name the second bot writes into its links. */
  const BotName := "beermovent_bot"

  /** `generate_link` of the second bot: the main bot's link with the name
      fixed. */
  function GenerateLink(entity: MainBot.Entity, uuid: string): (r: string)
    ensures r == "https://t.me/beermovent_bot?start=" + MainBot.StartArg(entity, uuid)
  {
    MainBot.GenerateLink(BotName, entity, uuid)
  }

  /** What `handle_delete_entity_confirm_query` does: the classroom it
      deletes, if any, and the text it shows. */
  datatype DeleteOutcome = DeleteOutcome(deletedClassroom: Option<int>, text: string)

  const DeletedSuffix := " successfully deleted"

  /** `entity, entity_id = data.split("#")[1:]` needs exactly three pieces
      (else `ValueError`); only `CLASSROOM` is deleted, and its id must be an
      integer (else `ValueError`). */
  function DeleteEntityConfirm(data: string): (r: Result<DeleteOutcome, PyExc>)
    ensures r.Failure? ==> r.error == ValueError
    ensures Count(data, '#') != 2 ==> r == Failure(ValueError)
    ensures r.Success? ==> |Split(data, '#')| == 3 && r.value.text == Split(data, '#')[1] + DeletedSuffix
    ensures r.Success? ==> (r.value.deletedClassroom.Some? <==> Split(data, '#')[1] == "CLASSROOM")
  {
    var parts := Split(data, '#');
    SplitCount(data, '#');
    if |parts| != 3 then Failure(ValueError)
    else
      var entity := parts[1];
      if entity == "CLASSROOM" then
        match ParseInt(parts[2], 10)
        case None => Failure(ValueError)
        case Some(id) => Success(DeleteOutcome(Some(id), entity + DeletedSuffix))
      else Success(DeleteOutcome(None, entity + DeletedSuffix))
  }

  /** A confirm button with an entity and an id: a classroom is deleted by
      that id, a test is not deleted at all. */
  lemma DeleteConfirmRoundTrip(b: Button, entity: MainBot.Entity, id: int)
    requires Hash !in Lower(b.name)
    ensures var name := if entity == MainBot.CLASSROOM then "CLASSROOM" else "TEST";
      DeleteEntityConfirm(GetButton(b, None, [name, IntToString(id)]).callbackData) ==
      Success(DeleteOutcome(if entity == MainBot.CLASSROOM then Some(id) else None, name + DeletedSuffix))
  {
    var name := if entity == MainBot.CLASSROOM then "CLASSROOM" else "TEST";
    var ps := [name, IntToString(id)];
    assert Hash !in IntToString(id);
    assert Hash !in name;
    CallbackDataSplit(b, ps);
    SplitCount(CallbackData(b, ps), Hash);
    IntRoundTrip(id);
  }

  /** The creation forms of the second bot: the same chain as the main
      bot's, with English prompts. */
  function CreationForms(): map<string, MainBot.FormEntry> {
    map[
      MainBot.TitleState := MainBot.FormEntry(MainBot.TitleState, "type test title #", MainBot.TimeState),
      MainBot.TimeState := MainBot.FormEntry(MainBot.TimeState, "type test time #", MainBot.DeadlineState),
      MainBot.DeadlineState := MainBot.FormEntry(MainBot.DeadlineState, "type test deadline #", MainBot.AttemptsState),
      MainBot.AttemptsState := MainBot.FormEntry(MainBot.AttemptsState, "type test attempts number #", MainBot.SaveWithAdditions)]
  }

  lemma CreationFormsChain()
    ensures MainBot.ChainClosed(CreationForms())
    ensures MainBot.Walk(CreationForms(), MainBot.TitleState, 10) ==
      [MainBot.TitleState, MainBot.TimeState, MainBot.DeadlineState, MainBot.AttemptsState, MainBot.SaveWithAdditions]
    ensures forall k :: k in CreationForms() <==> k in MainBot.CreationForms()
    ensures forall k :: k in CreationForms() ==> CreationForms()[k].nextState == MainBot.CreationForms()[k].nextState
  {
  }

  /** What an accepted create link keeps of the form's metadata: the title
      `meta_data["info"]["title"]` and `meta_data["responderUri"]`. */
  function MetaDataFields(metaData: Json): (r: Result<(Json, Json), PyExc>)
    ensures r.Success? <==>
      (PyGet(metaData, "info").Success? && PyGet(PyGet(metaData, "info").value, "title").Success? &&
       PyGet(metaData, "responderUri").Success?)
    ensures r.Success? ==>
      (r.value.0 == PyGet(PyGet(metaData, "info").value, "title").value &&
       r.value.1 == PyGet(metaData, "responderUri").value)
  {
    var info :- PyGet(metaData, "info");
    var title :- PyGet(info, "title");
    var uri :- PyGet(metaData, "responderUri");
    Success((title, uri))
  }
}
