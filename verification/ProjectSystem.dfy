/**
  The whole system on whole projects: any number of clients editing the text,
  tracking, comments and metadata of any number of files, while no file is added,
  moved or removed (overleaf-editor-core: ot_client.js on operation/index.js and
  edit_operation_transformer.js).
*/
module ProjectSystem {
  import opened OtLists
  import opened OtClients
  import opened OtSystem
  import EditOt
  import ProjectOt

  type Project<M> = ProjectOt.Project<EditOt.FileState, M>
  type Operation<M> = ProjectOt.Op<EditOt.FileState, M, EditOt.Edit>

  ghost function Projects<M(!new)>(clean: string -> bool): Ot<Project<M>, Operation<M>> {
    ProjectOt.InPlaceOps<EditOt.FileState, M, EditOt.Edit>(ProjectOt.Env(EditOt.FileEdits(), clean))
  }

  lemma ProjectDiamond<M(!new)>(clean: string -> bool)
    ensures Diamond(Projects<M>(clean))
  {
    EditOt.EditDiamond();
    ProjectOt.InPlaceDiamond<EditOt.FileState, M, EditOt.Edit>(ProjectOt.Env(EditOt.FileEdits(), clean));
  }

  /** Whatever the interleaving, clients that have consumed the whole log show the same project. */
  lemma ProjectEditorsConverge<M(!new)>(clean: string -> bool, start: Project<M>, steps: seq<Step<Operation<M>>>,
                                        s: System<Project<M>, Operation<M>>, i: nat, j: nat)
    requires Reaches(Projects<M>(clean), start, steps, s) && i in s.peers && j in s.peers
    requires forall id :: id in {i, j} ==>
      s.peers[id].inFlight == [] && s.peers[id].refused == {} && s.peers[id].delivered == Versions(|s.log|)
    ensures s.peers[i].client.editor == s.peers[j].client.editor
    ensures s.peers[i].client.phase == s.peers[j].client.phase == Ready
  {
    ProjectDiamond<M>(clean);
    QuietClientsConverge(Projects<M>(clean), start, steps, s, i);
    QuietClientsConverge(Projects<M>(clean), start, steps, s, j);
  }
}
