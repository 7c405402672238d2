/** The constants of `config.py` that the modelled code reads. */
module Config {

  /** `NICE_CLASS_MAP`: class code to description. */
  const NiceClassMap: map<string, string> := map[
    "14" := "贵重金属及合金等",
    "20" := "家具镜子相框等",
    "21" := "家庭或厨房用具及容器等"]

  /** `LOCAL_DB_CONFIG["columns"]`: the three column names of the local table. */
  const NameColumn: string := "使用词汇"
  const RegionColumn: string := "风险国家"
  const ClassColumn: string := "类别"

  /** `QUERY_PARAMS["max_names_per_query"]` */
  const MaxNamesPerQuery: nat := 100
}
