/**
 * The Medical Brain's static fallback knowledge base: six symptom entries, in
 * the insertion order in which the analyser walks them.
 */
module Knowledge {

  /** What the knowledge base says about one symptom. */
  datatype Entry = Entry(conditions: seq<string>, advice: seq<string>, warning: string)

  /** The symptom name, used both as the lookup key and as the pattern searched for. */
  type Row = (string, Entry)

  /** No key appears twice (a Python dict's keys are unique). */
  predicate DistinctKeys(t: seq<Row>) {
    forall i, j :: 0 <= i < j < |t| ==> t[i].0 != t[j].0
  }

  const Table: seq<Row> := [
    ("headache", Entry(
      ["Tension headache", "Migraine", "Dehydration", "Eye strain"],
      ["Rest in a quiet, dark room",
       "Apply cold or warm compress",
       "Stay hydrated",
       "Avoid bright lights and loud sounds",
       "Consider over-the-counter pain relief"],
      "Seek immediate care if headache is sudden and severe, or accompanied by fever, stiff neck, confusion, or vision changes.")),
    ("fever", Entry(
      ["Viral infection", "Bacterial infection", "Heat exhaustion", "Common cold", "Flu"],
      ["Monitor temperature regularly",
       "Stay well hydrated",
       "Rest and avoid strenuous activity",
       "Use fever-reducing medication as directed",
       "Wear light, breathable clothing"],
      "Seek medical attention if fever exceeds 103°F (39.4°C), lasts more than 3 days, or is accompanied by severe symptoms.")),
    ("cough", Entry(
      ["Common cold", "Bronchitis", "Allergies", "Asthma", "Flu"],
      ["Stay hydrated with warm fluids",
       "Use honey (for adults and children over 1 year)",
       "Try steam inhalation",
       "Avoid irritants like smoke",
       "Consider cough suppressants if dry cough"],
      "Consult a doctor if cough persists beyond 3 weeks, produces blood, or is accompanied by high fever or difficulty breathing.")),
    ("fatigue", Entry(
      ["Sleep deprivation", "Anemia", "Thyroid issues", "Depression", "Dehydration"],
      ["Ensure 7-9 hours of quality sleep",
       "Maintain regular exercise routine",
       "Eat balanced, nutritious meals",
       "Manage stress through relaxation techniques",
       "Stay hydrated throughout the day"],
      "Persistent unexplained fatigue lasting more than 2 weeks should be evaluated by a healthcare provider.")),
    ("nausea", Entry(
      ["Food poisoning", "Gastritis", "Motion sickness", "Pregnancy", "Migraine"],
      ["Sip clear fluids slowly",
       "Eat bland foods (crackers, rice, toast)",
       "Avoid strong odors",
       "Get fresh air",
       "Try ginger tea or peppermint"],
      "Seek immediate care if nausea is accompanied by severe abdominal pain, blood in vomit, signs of dehydration, or chest pain.")),
    ("chest pain", Entry(
      ["Heart attack", "Angina", "Muscle strain", "Anxiety"],
      ["🚨 CALL EMERGENCY SERVICES IMMEDIATELY",
       "Do not drive yourself",
       "Chew aspirin if not allergic",
       "Stay calm and rest"],
      "⚠️ EMERGENCY: Chest pain can be life-threatening. Seek immediate medical attention!"))
  ]

  /** The table is a well-formed dictionary: its six keys are pairwise different. */
  lemma TableKeysDistinct()
    ensures |Table| == 6 && DistinctKeys(Table)
  {
  }
}
