/**
 * `src/pages/Order.tsx`: the 3D-printing order wizard. The material lookup and the visibility of
 * the wizard's steps are functions of the form's state; the form itself is a class whose handlers
 * update its fields one after another. An empty string is JavaScript's falsy '' (nothing chosen).
 */
module Order {
  import opened Wrappers

  datatype UserType = NoUserType | Beginner | Expert
  datatype ModelAnswer = NoAnswer | HasModel | NeedsModel

  /** An entry of the `purposes` or `technologies` table. */
  datatype Choice = Choice(value: string, caption: string, materials: seq<string>)

  datatype FormData = FormData(name: string, email: string, phone: string, description: string, quantity: string)

  /** The contact fields as they are at first and after every reset. */
  const EmptyFormData := FormData("", "", "", "", "1")

  const Purposes: seq<Choice> := [
    Choice("prototype", "Прототипирование", ["PLA", "PETG", "ABS"]),
    Choice("miniatures", "Миниатюры и фигурки", ["Resin", "PLA"]),
    Choice("functional", "Функциональные детали", ["ABS", "ASA", "PETG", "Nylon"]),
    Choice("decorative", "Декоративные изделия", ["PLA", "Wood-fill", "Metal-fill"]),
    Choice("automotive", "Автомобильные детали", ["ABS", "ASA", "PA12"]),
    Choice("medical", "Медицинские изделия", ["PETG", "Medical grade resin"]),
    Choice("jewelry", "Ювелирные изделия", ["Castable resin", "Wax"]),
    Choice("architectural", "Архитектурные модели", ["PLA", "ABS"])]

  const Technologies: seq<Choice> := [
    Choice("fdm", "FDM/FFF (Пластиковые нити)",
           ["PLA", "ABS", "PETG", "ASA", "TPU", "Nylon", "Wood-fill", "Metal-fill", "Carbon fiber"]),
    Choice("sla", "SLA (Фотополимерная смола)",
           ["Standard resin", "Tough resin", "Flexible resin", "Castable resin", "Medical grade resin"]),
    Choice("sls", "SLS (Селективное лазерное спекание)",
           ["PA12", "PA11", "Glass-filled PA12", "Metal powder"])]

  /** `Array.prototype.find` on the `value` field. */
  function FindChoice(table: seq<Choice>, value: string): Option<Choice> {
    if table == [] then None
    else if table[0].value == value then Some(table[0])
    else FindChoice(table[1..], value)
  }

  /** `find` gives the first entry with that value, and nothing exactly when no entry has it. */
  lemma {:induction false} FindChoiceSpec(table: seq<Choice>, value: string)
    ensures FindChoice(table, value).None? <==> forall i :: 0 <= i < |table| ==> table[i].value != value
    ensures FindChoice(table, value).Some? ==>
              exists k :: 0 <= k < |table| && table[k] == FindChoice(table, value).value
                          && table[k].value == value
                          && forall j :: 0 <= j < k ==> table[j].value != value
    decreases |table|
  {
    if table != [] && table[0].value != value {
      FindChoiceSpec(table[1..], value);
      if FindChoice(table, value).Some? {
        var k :| 0 <= k < |table[1..]| && table[1..][k] == FindChoice(table, value).value
                 && table[1..][k].value == value
                 && forall j :: 0 <= j < k ==> table[1..][j].value != value;
        assert table[k + 1] == table[1..][k];
        assert forall j :: 1 <= j < k + 1 ==> table[j] == table[1..][j - 1];
      } else {
        assert forall i :: 1 <= i < |table| ==> table[i] == table[1..][i - 1];
      }
    }
  }

  /** No value appears twice in a table, so `find` picks out the one entry with a value. */
  predicate DistinctValues(table: seq<Choice>) {
    forall i, j :: 0 <= i < j < |table| ==> table[i].value != table[j].value
  }

  lemma FindEntry(table: seq<Choice>, k: nat)
    requires DistinctValues(table) && k < |table|
    ensures FindChoice(table, table[k].value) == Some(table[k])
  {
    FindChoiceSpec(table, table[k].value);
  }

  lemma TablesHaveDistinctValues()
    ensures DistinctValues(Purposes) && DistinctValues(Technologies)
  {
  }

  /** Every entry of both tables offers at least one material. */
  lemma TablesOfferMaterials()
    ensures forall i :: 0 <= i < |Purposes| ==> Purposes[i].materials != []
    ensures forall i :: 0 <= i < |Technologies| ==> Technologies[i].materials != []
  {
  }

  /** `getMaterialsForSelection`. */
  function MaterialsFor(userType: UserType, purpose: string, technology: string): seq<string> {
    if userType == Beginner && purpose != "" then
      match FindChoice(Purposes, purpose)
      case Some(c) => c.materials
      case None => []
    else if userType == Expert && technology != "" then
      match FindChoice(Technologies, technology)
      case Some(c) => c.materials
      case None => []
    else []
  }

  /** A beginner with a purpose gets that purpose's materials, or none for an unknown purpose; the
      technology plays no part. */
  lemma BeginnerMaterials(purpose: string, technology: string)
    requires purpose != ""
    ensures forall k :: 0 <= k < |Purposes| && Purposes[k].value == purpose ==>
              MaterialsFor(Beginner, purpose, technology) == Purposes[k].materials
    ensures (forall k :: 0 <= k < |Purposes| ==> Purposes[k].value != purpose) ==>
              MaterialsFor(Beginner, purpose, technology) == []
  {
    FindChoiceSpec(Purposes, purpose);
    TablesHaveDistinctValues();
    forall k | 0 <= k < |Purposes| && Purposes[k].value == purpose
      ensures MaterialsFor(Beginner, purpose, technology) == Purposes[k].materials
    {
      FindEntry(Purposes, k);
    }
  }

  /** An expert with a technology gets that technology's materials, or none for an unknown one;
      the purpose plays no part. */
  lemma ExpertMaterials(purpose: string, technology: string)
    requires technology != ""
    ensures forall k :: 0 <= k < |Technologies| && Technologies[k].value == technology ==>
              MaterialsFor(Expert, purpose, technology) == Technologies[k].materials
    ensures (forall k :: 0 <= k < |Technologies| ==> Technologies[k].value != technology) ==>
              MaterialsFor(Expert, purpose, technology) == []
  {
    FindChoiceSpec(Technologies, technology);
    TablesHaveDistinctValues();
    forall k | 0 <= k < |Technologies| && Technologies[k].value == technology
      ensures MaterialsFor(Expert, purpose, technology) == Technologies[k].materials
    {
      FindEntry(Technologies, k);
    }
  }

  /** Every other combination offers nothing: no user type, a beginner without a purpose (even with
      a technology left over), an expert without a technology. */
  lemma OtherSelectionsOfferNothing(userType: UserType, purpose: string, technology: string)
    requires !(userType == Beginner && purpose != "") && !(userType == Expert && technology != "")
    ensures MaterialsFor(userType, purpose, technology) == []
  {
  }

  /** A concrete instance: the fdm technology means nothing to a beginner. */
  lemma BeginnerWithOnlyTechnology()
    ensures MaterialsFor(Beginner, "", "fdm") == []
    ensures MaterialsFor(Expert, "", "fdm") == Technologies[0].materials
  {
    FindEntry(Technologies, 0);
  }

  /* ---------- step visibility ---------- */

  /** The purpose card is shown to beginners only, the technology card to experts only. */
  predicate PurposeStepVisible(userType: UserType) { userType == Beginner }
  predicate TechnologyStepVisible(userType: UserType) { userType == Expert }

  /** The material card. */
  predicate MaterialStepVisible(userType: UserType, purpose: string, technology: string) {
    (userType == Beginner && purpose != "") || (userType == Expert && technology != "")
  }

  /** The "do you have a model" card. */
  predicate ModelStepVisible(material: string) { material != "" }

  /** The contact details card. */
  predicate DetailsStepVisible(hasModel: ModelAnswer) { hasModel != NoAnswer }

  /** Whenever the material card is shown for a choice taken from its table, it offers that
      entry's materials, which are never empty. */
  lemma VisibleMaterialStepOffersMaterials(userType: UserType, purpose: string, technology: string)
    requires MaterialStepVisible(userType, purpose, technology)
    requires userType == Beginner ==> exists k :: 0 <= k < |Purposes| && Purposes[k].value == purpose
    requires userType == Expert ==> exists k :: 0 <= k < |Technologies| && Technologies[k].value == technology
    ensures MaterialsFor(userType, purpose, technology) != []
  {
    TablesOfferMaterials();
    if userType == Beginner {
      BeginnerMaterials(purpose, technology);
    } else {
      ExpertMaterials(purpose, technology);
    }
  }

  /** The state of the order page. */
  class OrderForm {
    var userType: UserType
    var purpose: string
    var technology: string
    var material: string
    var hasModel: ModelAnswer
    var formData: FormData

    /** The initial `useState` values. */
    constructor ()
      ensures userType == NoUserType && purpose == "" && technology == "" && material == ""
      ensures hasModel == NoAnswer && formData == EmptyFormData
    {
      userType := NoUserType;
      purpose := "";
      technology := "";
      material := "";
      hasModel := NoAnswer;
      formData := EmptyFormData;
    }

    /** The steps after the user-type choice are all hidden. */
    predicate LaterStepsHidden()
      reads this
    {
      !MaterialStepVisible(userType, purpose, technology)
      && !ModelStepVisible(material) && !DetailsStepVisible(hasModel)
      && MaterialsFor(userType, purpose, technology) == []
    }

    /** `resetForm`: clears every choice after the user type and empties the contact fields
        (quantity back to '1'); the user type is kept. */
    method ResetForm()
      modifies this
      ensures userType == old(userType)
      ensures purpose == "" && technology == "" && material == "" && hasModel == NoAnswer
      ensures formData == EmptyFormData
      ensures LaterStepsHidden()
    {
      purpose := "";
      technology := "";
      material := "";
      hasModel := NoAnswer;
      formData := EmptyFormData;
    }

    /** The "beginner" button: set the user type, then reset the rest. */
    method ChooseBeginner()
      modifies this
      ensures userType == Beginner
      ensures purpose == "" && technology == "" && material == "" && hasModel == NoAnswer
      ensures formData == EmptyFormData
      ensures PurposeStepVisible(userType) && !TechnologyStepVisible(userType) && LaterStepsHidden()
    {
      userType := Beginner;
      ResetForm();
    }

    /** The "expert" button: set the user type, then reset the rest. */
    method ChooseExpert()
      modifies this
      ensures userType == Expert
      ensures purpose == "" && technology == "" && material == "" && hasModel == NoAnswer
      ensures formData == EmptyFormData
      ensures TechnologyStepVisible(userType) && !PurposeStepVisible(userType) && LaterStepsHidden()
    {
      userType := Expert;
      ResetForm();
    }

    /** The purpose select: a beginner with a purpose now sees the material card. */
    method SetPurpose(value: string)
      modifies this`purpose
      ensures purpose == value
      ensures userType == Beginner ==> (MaterialStepVisible(userType, purpose, technology) <==> value != "")
    {
      purpose := value;
    }

    /** The technology select: an expert with a technology now sees the material card. */
    method SetTechnology(value: string)
      modifies this`technology
      ensures technology == value
      ensures userType == Expert ==> (MaterialStepVisible(userType, purpose, technology) <==> value != "")
    {
      technology := value;
    }

    /** The material select; the model card appears iff a material is chosen. */
    method SetMaterial(value: string)
      modifies this`material
      ensures material == value
      ensures ModelStepVisible(material) <==> value != ""
    {
      material := value;
    }

    /** The "yes" / "no" model buttons; either answer shows the details card. */
    method SetHasModel(answer: ModelAnswer)
      requires answer != NoAnswer
      modifies this`hasModel
      ensures hasModel == answer
      ensures DetailsStepVisible(hasModel)
    {
      hasModel := answer;
    }

    /** The contact inputs: each replaces one field of `formData` and keeps the others. */
    method SetName(value: string)
      modifies this`formData
      ensures formData == old(formData).(name := value)
    {
      formData := formData.(name := value);
    }

    method SetPhone(value: string)
      modifies this`formData
      ensures formData == old(formData).(phone := value)
    {
      formData := formData.(phone := value);
    }

    method SetEmail(value: string)
      modifies this`formData
      ensures formData == old(formData).(email := value)
    {
      formData := formData.(email := value);
    }

    method SetQuantity(value: string)
      modifies this`formData
      ensures formData == old(formData).(quantity := value)
    {
      formData := formData.(quantity := value);
    }

    method SetDescription(value: string)
      modifies this`formData
      ensures formData == old(formData).(description := value)
    {
      formData := formData.(description := value);
    }
  }
}
